/** The agent's network state over whole runs of stage, commit, lease, recovery, crash and restart. */
module NetworkRuns {
  import opened Base
  import opened HostModel
  import opened NetworkPlan
  import opened NetworkOps
  import opened NetworkSafety

  // ----- Rolling back a whole job

  /** Every borrowed interface is back; only the job's namespaces may be left over. */
  ghost predicate Home(job: Job, base: Host, h: Host)
  {
    Undoable(job, base, h) && h.links == base.links
  }

  lemma {:induction false} PassKeepsUndoable(job: Job, base: Host, at: nat, e: Env, ok: bool)
    requires Fits(job, base) && Undoable(job, base, e.host) && at <= |job.borrows|
    ensures Undoable(job, base, RestorePass(UndoAll(job.borrows[at..]), e, ok).0.host)
    decreases |job.borrows| - at
  {
    if at < |job.borrows| {
      var b := job.borrows[at];
      var base0 := base.links[b.dev];
      assert job.borrows[at..][1..] == job.borrows[at + 1..];
      assert FitsOne(b, job.ethtool, base);
      PassConcat(Undo(b), UndoAll(job.borrows[at + 1..]), e, ok);
      UndoIsRestorations(b, job.ethtool);
      PassTouchesOne(b, job.ethtool, base0, Undo(b), e, ok);
      var (e1, v) := RestorePass(Undo(b), e, ok);
      OneLinkKeepsUndoable(job, base, at, e.host, e1.host);
      if !v.Died? {
        PassKeepsUndoable(job, base, at + 1, e1, v.Fine?);
      }
    }
  }

  /** The restoration pass of a job reports success only when every interface is back. */
  lemma {:induction false} PassRestoresAll(job: Job, base: Host, at: nat, e: Env)
    requires Fits(job, base) && Undoable(job, base, e.host) && at <= |job.borrows|
    requires forall i :: 0 <= i < at ==> e.host.links[job.borrows[i].dev] == base.links[job.borrows[i].dev]
    ensures var (e1, v) := RestorePass(UndoAll(job.borrows[at..]), e, true);
            && (v.Fine? ==> Home(job, base, e1.host))
            && (e.tape == [] ==> v.Fine? && e1.tape == [])
    decreases |job.borrows| - at
  {
    if at == |job.borrows| {
      forall d | d in e.host.links
        ensures e.host.links[d] == base.links[d]
      {
        if Borrows(job, d) {
          var i :| 0 <= i < |job.borrows| && job.borrows[i].dev == d;
        }
      }
      assert e.host.links == base.links;
    } else {
      var b := job.borrows[at];
      assert job.borrows[at..][1..] == job.borrows[at + 1..];
      assert FitsOne(b, job.ethtool, base);
      PassConcat(Undo(b), UndoAll(job.borrows[at + 1..]), e, true);
      UndoRestoresOne(b, job.ethtool, base.links[b.dev], e);
      var (e1, v) := RestorePass(Undo(b), e, true);
      OneLinkKeepsUndoable(job, base, at, e.host, e1.host);
      if v.Fine? {
        forall i | 0 <= i < at + 1
          ensures e1.host.links[job.borrows[i].dev] == base.links[job.borrows[i].dev]
        {
          if i < at {
            assert job.borrows[i].dev != b.dev;
          }
        }
        PassRestoresAll(job, base, at + 1, e1);
      } else {
        FailedPassStaysFailed(UndoAll(job.borrows[at + 1..]), e1);
      }
    }
  }

  /** Only the last command of Undo(b) takes part in the cleanup pass. */
  lemma {:induction false} CleanupSkipsTo(list: seq<Command>, ns: string, rest: seq<Command>, e: Env, ok: bool)
    requires forall i :: 0 <= i < |list| ==> !list[i].DeleteNamespace?
    ensures var (e1, v) := Attempt(DeleteNamespace(ns), e, ATTEMPTS);
            CleanupPass(list + [DeleteNamespace(ns)] + rest, e, ok)
            == if v.Died? then (e1, Died) else CleanupPass(rest, e1, ok && v.Fine?)
  {
    var all := list + [DeleteNamespace(ns)] + rest;
    if list == [] {
      assert all[0] == DeleteNamespace(ns) && all[1..] == rest;
    } else {
      assert all[1..] == list[1..] + [DeleteNamespace(ns)] + rest;
      CleanupSkipsTo(list[1..], ns, rest, e, ok);
    }
  }

  lemma UndoEndsWithDelete(b: Borrow)
    ensures var list := Undo(b)[..|Undo(b)| - 1];
            Undo(b) == list + [DeleteNamespace(b.ns)] && forall i :: 0 <= i < |list| ==> !list[i].DeleteNamespace?
  {
    UndoInParts(b);
    assert RESTORE_ORDER[0..] == RESTORE_ORDER;
    RestoresBelong(b, true, 0);
  }

  /** Deleting a namespace of the job once every interface is home touches nothing else. */
  lemma DeleteKeepsLinks(job: Job, base: Host, k: nat, h: Host)
    requires Fits(job, base) && Home(job, base, h) && k < |job.borrows|
    ensures After(DeleteNamespace(job.borrows[k].ns), h) == h.(namespaces := h.namespaces - {job.borrows[k].ns})
  {
    var b := job.borrows[k];
    assert FitsOne(b, job.ethtool, base);
    forall d | d in h.links
      ensures h.links[d].place != Inside(b.ns)
    {
      assert base.links[d].place.Inside? ==> base.links[d].place.ns in base.namespaces;
    }
    assert After(DeleteNamespace(b.ns), h).links == h.links;
    assert b.ns !in h.namespaces ==> h.namespaces - {b.ns} == h.namespaces;
  }

  lemma FewerNamespacesKeepHome(job: Job, base: Host, k: nat, h: Host)
    requires Fits(job, base) && Home(job, base, h) && k < |job.borrows|
    ensures Home(job, base, h.(namespaces := h.namespaces - {job.borrows[k].ns}))
  {
    var after := h.(namespaces := h.namespaces - {job.borrows[k].ns});
    assert FitsOne(job.borrows[k], job.ethtool, base);
    forall i | 0 <= i < |job.borrows|
      ensures var b := job.borrows[i];
              b.dev in after.links && Bounded(b, job.ethtool, base.links[b.dev], after.links[b.dev], after.namespaces)
    {
      assert FitsOne(job.borrows[i], job.ethtool, base);
    }
  }

  /** Attempts to delete a namespace nobody is inside of take away nothing but that namespace. */
  lemma {:induction false} AttemptDelete(ns: string, h: Host, e: Env, left: nat)
    requires After(DeleteNamespace(ns), h) == h.(namespaces := h.namespaces - {ns})
    requires e.host == h || e.host == h.(namespaces := h.namespaces - {ns})
    ensures var (e1, v) := Attempt(DeleteNamespace(ns), e, left);
            && (e1.host == h || e1.host == h.(namespaces := h.namespaces - {ns}))
            && (v.Fine? ==> ns !in e1.host.namespaces)
            && (e.tape == [] && left > 0 ==> v.Fine? && e1.tape == [])
    decreases left
  {
    if left > 0 {
      var (e1, v) := Try(DeleteNamespace(ns), e, true);
      if v.Failed? {
        AttemptDelete(ns, h, e1, left - 1);
      }
    }
  }

  lemma DeleteLeftover(job: Job, base: Host, k: nat, e: Env, left: nat)
    requires Fits(job, base) && Home(job, base, e.host) && k < |job.borrows|
    ensures var ns := job.borrows[k].ns;
            var (e1, v) := Attempt(DeleteNamespace(ns), e, left);
            && Home(job, base, e1.host)
            && (e1.host == e.host || e1.host == e.host.(namespaces := e.host.namespaces - {ns}))
            && (v.Fine? ==> ns !in e1.host.namespaces)
            && (e.tape == [] && left > 0 ==> v.Fine? && e1.tape == [])
  {
    DeleteKeepsLinks(job, base, k, e.host);
    FewerNamespacesKeepHome(job, base, k, e.host);
    AttemptDelete(job.borrows[k].ns, e.host, e, left);
  }

  /** The cleanup pass reports success only when the host is as before the job. */
  lemma {:induction false} CleanupRestoresAll(job: Job, base: Host, at: nat, e: Env, ok: bool)
    requires Fits(job, base) && Home(job, base, e.host) && at <= |job.borrows|
    requires ok ==> forall i :: 0 <= i < at ==> job.borrows[i].ns !in e.host.namespaces
    ensures var (e1, v) := CleanupPass(UndoAll(job.borrows[at..]), e, ok);
            && Home(job, base, e1.host)
            && (v.Fine? ==> e1.host == base)
            && (ok && e.tape == [] ==> v.Fine? && e1.tape == [])
    decreases |job.borrows| - at
  {
    if at == |job.borrows| {
      if ok {
        forall ns | ns in e.host.namespaces
          ensures ns in base.namespaces
        {
          assert !Names(job, ns);
        }
        assert e.host.namespaces == base.namespaces;
      }
    } else {
      var b := job.borrows[at];
      var rest := UndoAll(job.borrows[at + 1..]);
      assert job.borrows[at..][1..] == job.borrows[at + 1..];
      UndoEndsWithDelete(b);
      CleanupSkipsTo(Undo(b)[..|Undo(b)| - 1], b.ns, rest, e, ok);
      DeleteLeftover(job, base, at, e, ATTEMPTS);
      var (e1, v) := Attempt(DeleteNamespace(b.ns), e, ATTEMPTS);
      if !v.Died? {
        CleanupRestoresAll(job, base, at + 1, e1, ok && v.Fine?);
      }
    }
  }

  /** The whole rollback: whatever fails, nothing is lost and the host stays undoable; success is
      reported exactly when the host is restored; an undisturbed rollback succeeds. */
  lemma RollbackRestores(job: Job, base: Host, e: Env)
    requires Fits(job, base) && Undoable(job, base, e.host)
    ensures var (e1, v) := Passes(UndoAll(job.borrows), e);
            && Undoable(job, base, e1.host)
            && (v.Fine? ==> e1.host == base)
            && (e.tape == [] ==> v.Fine? && e1.tape == [])
  {
    assert job.borrows[0..] == job.borrows;
    PassKeepsUndoable(job, base, 0, e, true);
    PassRestoresAll(job, base, 0, e);
    var (e1, v) := RestorePass(UndoAll(job.borrows), e, true);
    if v.Fine? {
      CleanupRestoresAll(job, base, 0, e1, true);
    }
  }

  /** No rollback, however its attempts fail, deletes a namespace that still holds an interface:
      no interface of the host is ever lost. */
  lemma RollbackLosesNoInterface(job: Job, base: Host, e: Env)
    requires Fits(job, base) && Undoable(job, base, e.host)
    ensures Passes(UndoAll(job.borrows), e).0.host.links.Keys == e.host.links.Keys
  {
    RollbackRestores(job, base, e);
  }

  // ----- Preparing a host

  lemma MoreNamespacesKeepUndoable(job: Job, base: Host, ns: string, h: Host)
    requires Undoable(job, base, h) && Names(job, ns)
    ensures Undoable(job, base, h.(namespaces := h.namespaces + {ns}))
  {
  }

  lemma ForwardKeepsUndoable(job: Job, base: Host, k: nat, c: Command, h: Host)
    requires Fits(job, base) && Undoable(job, base, h)
    requires k < |job.borrows| && Prepares(c, job.borrows[k], job.ethtool)
    ensures Undoable(job, base, After(c, h))
  {
    var b := job.borrows[k];
    if c.AddNamespace? {
      assert Names(job, b.ns);
      MoreNamespacesKeepUndoable(job, base, b.ns, h);
    } else if After(c, h) != h {
      PreparationTouchesOne(job, base, k, c, h);
      OneLinkKeepsUndoable(job, base, k, h, After(c, h));
    }
  }

  /** The link of the interface after a preparing command that takes effect. */
  function Preparing(c: Command, link: Link): Link
  {
    match c
    case MoveIn(_, ns) => Moved(link, Inside(ns))
    case ConfigureLink(_, _, mtu) => link.(mtu := mtu, up := true)
    case AddAddress(_, _, a) => link.(addresses := link.addresses + [a])
    case DisableFeature(_, _, f) => link.(enabled := Disable(link.enabled, f))
    case _ => link
  }

  lemma PreparationUpdates(b: Borrow, ethtool: bool, c: Command, h: Host)
    requires b.dev in h.links && Prepares(c, b, ethtool) && !c.AddNamespace? && After(c, h) != h
    ensures After(c, h) == Update(h, b.dev, Preparing(c, h.links[b.dev])) && b.ns in h.namespaces
    ensures if c.MoveIn? then c.ns == b.ns
            else (c.ConfigureLink? || c.AddAddress? || (c.DisableFeature? && ethtool))
                 && h.links[b.dev].place == Inside(b.ns)
  {
  }

  lemma PreparationStaysBounded(b: Borrow, ethtool: bool, base: Link, c: Command, link: Link, namespaces: set<string>)
    requires Bounded(b, ethtool, base, link, namespaces) && b.ns in namespaces
    requires if c.MoveIn? then c.ns == b.ns
             else (c.ConfigureLink? || c.AddAddress? || (c.DisableFeature? && ethtool)) && link.place == Inside(b.ns)
    ensures Bounded(b, ethtool, base, Preparing(c, link), namespaces)
  {
  }

  lemma PreparationTouchesOne(job: Job, base: Host, k: nat, c: Command, h: Host)
    requires Fits(job, base) && Undoable(job, base, h) && After(c, h) != h && !c.AddNamespace?
    requires k < |job.borrows| && Prepares(c, job.borrows[k], job.ethtool)
    ensures var b := job.borrows[k];
            OnlyLink(h, After(c, h), b.dev) && b.dev in base.links
            && Held(b, job.ethtool, base.links[b.dev], After(c, h))
  {
    var b := job.borrows[k];
    assert FitsOne(b, job.ethtool, base);
    PreparationUpdates(b, job.ethtool, c, h);
    PreparationStaysBounded(b, job.ethtool, base.links[b.dev], c, h.links[b.dev], h.namespaces);
    UpdateTouchesOne(h, b.dev, Preparing(c, h.links[b.dev]));
  }

  /** A command that prepares the host for `b`. */
  ghost predicate Prepares(c: Command, b: Borrow, ethtool: bool)
  {
    Belongs(c, b, ethtool) && !Restoration(c) && !c.DeleteNamespace?
  }

  ghost predicate AllPrepare(list: seq<Command>, b: Borrow, ethtool: bool)
  {
    forall i :: 0 <= i < |list| ==> Prepares(list[i], b, ethtool)
  }

  lemma ForwardPrepares(b: Borrow, mtu: nat, arping: bool, ethtool: bool)
    ensures AllPrepare(Forward(b, mtu, arping, ethtool), b, ethtool)
  {
    assert AllPrepare(Probes(b.dev, b.pool), b, ethtool);
    assert AllPrepare([AddNamespace(b.ns), MoveIn(b.dev, b.ns), LoopbackUp(b.ns), ConfigureLink(b.ns, b.dev, mtu)],
                      b, ethtool);
    assert AllPrepare(Additions(b.ns, b.dev, b.pool), b, ethtool);
    assert ethtool ==> AllPrepare(Disables(b.ns, b.dev), b, ethtool);
  }

  ghost predicate Planned(job: Job, c: Command)
  {
    exists k :: 0 <= k < |job.borrows| && Prepares(c, job.borrows[k], job.ethtool)
  }

  lemma {:induction false} CommandsArePlanned(job: Job, at: nat)
    requires at <= |job.borrows|
    ensures forall c :: c in ForwardAll(job.borrows[at..], job.mtu, job.arping, job.ethtool) ==> Planned(job, c)
    decreases |job.borrows| - at
  {
    if at < |job.borrows| {
      var here := Forward(job.borrows[at], job.mtu, job.arping, job.ethtool);
      var later := ForwardAll(job.borrows[at + 1..], job.mtu, job.arping, job.ethtool);
      assert job.borrows[at..][1..] == job.borrows[at + 1..];
      assert ForwardAll(job.borrows[at..], job.mtu, job.arping, job.ethtool) == here + later;
      CommandsArePlanned(job, at + 1);
      ForwardPrepares(job.borrows[at], job.mtu, job.arping, job.ethtool);
      forall c | c in here
        ensures Planned(job, c)
      {
        assert Prepares(c, job.borrows[at], job.ethtool);
      }
    }
  }

  lemma PlannedKeepsUndoable(job: Job, base: Host, c: Command, h: Host)
    requires Fits(job, base) && Undoable(job, base, h) && Planned(job, c)
    ensures Undoable(job, base, After(c, h))
  {
    var k :| 0 <= k < |job.borrows| && Prepares(c, job.borrows[k], job.ethtool);
    ForwardKeepsUndoable(job, base, k, c, h);
  }

  lemma CommandIsPlanned(job: Job, i: nat)
    requires i < |Commands(job)|
    ensures Planned(job, Commands(job)[i])
  {
    assert job.borrows[0..] == job.borrows;
    CommandsArePlanned(job, 0);
    assert Commands(job)[i] in Commands(job);
  }

  lemma TryKeepsUndoable(job: Job, base: Host, i: nat, e: Env)
    requires Fits(job, base) && Undoable(job, base, e.host) && i < |Commands(job)|
    ensures Undoable(job, base, Try(Commands(job)[i], e, false).0.host)
    ensures Undoable(job, base, After(Commands(job)[i], e.host))
  {
    CommandIsPlanned(job, i);
    PlannedKeepsUndoable(job, base, Commands(job)[i], e.host);
    TryEither(Commands(job)[i], e);
  }

  lemma TryEither(c: Command, e: Env)
    ensures var after := Try(c, e, false).0.host; after == e.host || after == After(c, e.host)
  {
  }

  /** Any selection of the commands, each taking effect or not. */
  function ExecuteSome(commands: seq<Command>, chosen: seq<bool>, h: Host): Host
    requires |chosen| <= |commands|
  {
    if chosen == [] then h
    else ExecuteSome(commands[1..], chosen[1..], if chosen[0] then After(commands[0], h) else h)
  }

  lemma {:induction false} SomeKeep(p: Host -> bool, base: Host, commands: seq<Command>, undo: seq<Command>, at: nat,
                                    chosen: seq<bool>, h: Host)
    requires Stable(p, base, commands, undo) && p(h) && at + |chosen| <= |commands|
    ensures p(ExecuteSome(commands[at..], chosen, h))
    decreases |chosen|
  {
    if chosen != [] {
      assert p(After(commands[at], h));
      SomeNext(commands, at, chosen, h);
      SomeKeep(p, base, commands, undo, at + 1, chosen[1..], if chosen[0] then After(commands[at], h) else h);
    }
  }

  lemma {:induction false} SomeKeepsUndoable(job: Job, base: Host, chosen: seq<bool>, h: Host)
    requires Fits(job, base) && Undoable(job, base, h) && |chosen| <= |Commands(job)|
    ensures Undoable(job, base, ExecuteSome(Commands(job), chosen, h))
  {
    JobIsStable(job, base);
    assert Commands(job)[0..] == Commands(job);
    SomeKeep(x => Undoable(job, base, x), base, Commands(job), UndoAll(job.borrows), 0, chosen, h);
  }

  lemma {:induction false} SomeNext(commands: seq<Command>, at: nat, chosen: seq<bool>, h: Host)
    requires chosen != [] && at + |chosen| <= |commands|
    ensures ExecuteSome(commands[at..], chosen, h)
         == ExecuteSome(commands[at + 1..], chosen[1..], if chosen[0] then After(commands[at], h) else h)
  {
    assert commands[at..][1..] == commands[at + 1..];
  }

  /** Rollbacks one after the other, each disturbed or interrupted as its tape says. */
  function RollBackOften(undo: seq<Command>, h: Host, tapes: seq<seq<Event>>): Host
    decreases |tapes|
  {
    if tapes == [] then h else RollBackOften(undo, Passes(undo, Env(h, tapes[0])).0.host, tapes[1..])
  }

  lemma {:induction false} OftenKeepsUndoable(job: Job, base: Host, h: Host, tapes: seq<seq<Event>>)
    requires Fits(job, base) && Undoable(job, base, h)
    ensures Undoable(job, base, RollBackOften(UndoAll(job.borrows), h, tapes))
    decreases |tapes|
  {
    if tapes != [] {
      RollbackRestores(job, base, Env(h, tapes[0]));
      OftenKeepsUndoable(job, base, Passes(UndoAll(job.borrows), Env(h, tapes[0])).0.host, tapes[1..]);
    }
  }

  /** Crash-safe undo. Take the host on which the job was planned, let any prefix of its commands
      run (whichever of them take effect), then any number of rollbacks that are disturbed or
      interrupted: one undisturbed rollback restores the host completely. */
  lemma CrashSafeUndo(job: Job, base: Host, chosen: seq<bool>, tapes: seq<seq<Event>>)
    requires Fits(job, base) && |chosen| <= |Commands(job)|
    ensures var left := RollBackOften(UndoAll(job.borrows), ExecuteSome(Commands(job), chosen, base), tapes);
            Passes(UndoAll(job.borrows), Env(left, [])) == (Env(base, []), Fine)
  {
    var undo, broken := UndoAll(job.borrows), ExecuteSome(Commands(job), chosen, base);
    PlanningLeavesNothingUndone(job, base);
    SomeKeepsUndoable(job, base, chosen, base);
    OftenKeepsUndoable(job, base, broken, tapes);
    RollbackRestores(job, base, Env(RollBackOften(undo, broken, tapes), []));
  }

  // ----- The journal

  /** Either the host is untouched or the durable journal holds the list that restores it. */
  ghost predicate Secured(job: Job, base: Host, host: Host, journal: Option<Journal>)
  {
    match journal
    case None => host == base
    case Some(j) => Fits(job, base) && Undoable(job, base, host) && j.undo == UndoAll(job.borrows)
  }

  lemma WriteEither(n: Node, value: Option<Journal>)
    ensures var (n1, v) := WriteJournal(n, value);
            && n1.host == n.host && (n1.journal == n.journal || n1.journal == value)
            && (v.Fine? ==> n1.journal == value) && (n.tape == [] ==> v.Fine? && n1.tape == [])
  {
  }

  lemma RollbackKeepsSecured(job: Job, base: Host, n: Node, undo: seq<Command>)
    requires Fits(job, base) && Undoable(job, base, n.host)
    requires undo == UndoAll(job.borrows) && n.journal.Some? && n.journal.value.undo == undo
    ensures var (n1, v) := RollbackNode(n, undo);
            && Secured(job, base, n1.host, n1.journal)
            && (n1.journal.None? || n1.journal == n.journal)
            && (v.Fine? ==> n1.journal.None?)
            && (n.tape == [] ==> v.Fine? && n1 == Node(base, None, []))
  {
    RollbackRestores(job, base, Env(n.host, n.tape));
    var (e, v) := Passes(undo, Env(n.host, n.tape));
    WriteEither(Node(e.host, n.journal, e.tape), None);
  }

  /** A property of the host that every command keeps and every rollback keeps. */
  ghost predicate Stable(p: Host -> bool, base: Host, commands: seq<Command>, undo: seq<Command>)
  {
    && (forall i, h {:trigger After(commands[i], h)} :: 0 <= i < |commands| && p(h) ==> p(After(commands[i], h)))
    && (forall e: Env {:trigger Passes(undo, e)} :: p(e.host) ==>
          var (e1, v) := Passes(undo, e); p(e1.host) && (v.Fine? ==> e1.host == base))
  }

  /** The node while an operation is being worked on, or after it was abandoned and undone. */
  ghost predicate Kept(p: Host -> bool, base: Host, undo: seq<Command>, n: Node)
  {
    match n.journal
    case None => n.host == base
    case Some(j) => p(n.host) && j.undo == undo && !j.phase.Prepared?
  }

  lemma {:induction false} AbortKeeps(p: Host -> bool, base: Host, commands: seq<Command>, n: Node, j: Journal)
    requires Stable(p, base, commands, j.undo)
    requires n.journal.Some? && Kept(p, base, j.undo, n)
    ensures var (n1, v) := AbortNode(n, j); Kept(p, base, j.undo, n1) && !v.Fine?
  {
    var (n1, v) := WriteJournal(n, Some(j.(phase := RollingBack)));
    if v.Fine? {
      var (e, u) := Passes(j.undo, Env(n1.host, n1.tape));
    }
  }

  lemma {:induction false} CommandKeeps(p: Host -> bool, base: Host, commands: seq<Command>, undo: seq<Command>,
                                        i: nat, e: Env)
    requires Stable(p, base, commands, undo) && p(e.host) && i < |commands|
    ensures p(Try(commands[i], e, false).0.host)
  {
    assert p(After(commands[i], e.host));
    TryEither(commands[i], e);
  }

  lemma {:induction false} ApplyKeeps(p: Host -> bool, base: Host, commands: seq<Command>, n: Node, j: Journal)
    requires Stable(p, base, commands, j.undo)
    requires n.journal.Some? && Kept(p, base, j.undo, n) && !j.phase.Prepared? && j.completed <= |commands|
    ensures var (n1, v) := ApplyFrom(n, j, commands);
            && Kept(p, base, j.undo, n1)
            && (v.Fine? ==> n1.journal == Some(j.(phase := Staged, completed := |commands|)))
    decreases |commands| - j.completed
  {
    if j.completed < |commands| {
      CommandKeeps(p, base, commands, j.undo, j.completed, Env(n.host, n.tape));
      var (e, v) := Try(commands[j.completed], Env(n.host, n.tape), false);
      var n1 := Node(e.host, n.journal, e.tape);
      if v.Failed? {
        AbortKeeps(p, base, commands, n1, j);
      } else if v.Fine? {
        var j1 := j.(completed := j.completed + 1);
        var (n2, w) := WriteJournal(n1, Some(j1));
        if w.Fine? {
          ApplyKeeps(p, base, commands, n2, j1);
        }
      }
    }
  }

  lemma JobIsStable(job: Job, base: Host)
    requires Fits(job, base)
    ensures Stable(h => Undoable(job, base, h), base, Commands(job), UndoAll(job.borrows))
  {
    forall i, h | 0 <= i < |Commands(job)| && Undoable(job, base, h)
      ensures Undoable(job, base, After(Commands(job)[i], h))
    {
      TryKeepsUndoable(job, base, i, Env(h, []));
    }
    forall e: Env | Undoable(job, base, e.host)
      ensures var (e1, v) := Passes(UndoAll(job.borrows), e);
              Undoable(job, base, e1.host) && (v.Fine? ==> e1.host == base)
    {
      RollbackRestores(job, base, e);
    }
  }

  /** Applying a plan keeps the node secured; only a complete application is staged. */
  lemma ApplyKeepsSecured(job: Job, base: Host, n: Node, j: Journal)
    requires Fits(job, base) && Undoable(job, base, n.host)
    requires n.journal == Some(j) && j.undo == UndoAll(job.borrows)
    requires !j.phase.Prepared? && j.completed <= |Commands(job)|
    ensures var (n1, v) := ApplyFrom(n, j, Commands(job));
            && Secured(job, base, n1.host, n1.journal)
            && (n1.journal.Some? ==> !n1.journal.value.phase.Prepared?)
            && (v.Fine? ==> n1.journal == Some(j.(phase := Staged, completed := |Commands(job)|)))
  {
    JobIsStable(job, base);
    ApplyKeeps(h => Undoable(job, base, h), base, Commands(job), n, j);
  }

  // ----- A stage that fails

  function PlanFor(fingerprint: map<string, Link>, job: Job): Plan
  {
    Plan(fingerprint, [], Commands(job), UndoAll(job.borrows))
  }

  /** The node and its journal at the moment at which a command of the plan fails, if one does. */
  function FailsAt(n: Node, j: Journal, commands: seq<Command>): Option<(Node, Journal)>
    requires j.completed <= |commands|
    decreases |commands| - j.completed
  {
    if j.completed == |commands| then None
    else
      var (e, v) := Try(commands[j.completed], Env(n.host, n.tape), false);
      var n1 := Node(e.host, n.journal, e.tape);
      if v.Died? then None
      else if v.Failed? then Some((n1, j))
      else
        var j1 := j.(completed := j.completed + 1);
        var (n2, w) := WriteJournal(n1, Some(j1));
        if !w.Fine? then None else FailsAt(n2, j1, commands)
  }

  /** Wherever `p` holds, an undisturbed rollback leads back to `base`. */
  ghost predicate Reversible(p: Host -> bool, base: Host, undo: seq<Command>)
  {
    forall e: Env {:trigger Passes(undo, e)} :: p(e.host) && e.tape == [] ==> Passes(undo, e) == (Env(base, []), Fine)
  }

  lemma JobIsReversible(job: Job, base: Host)
    requires Fits(job, base)
    ensures Reversible(h => Undoable(job, base, h), base, UndoAll(job.borrows))
  {
    forall e: Env | Undoable(job, base, e.host) && e.tape == []
      ensures Passes(UndoAll(job.borrows), e) == (Env(base, []), Fine)
    {
      RollbackRestores(job, base, e);
    }
  }

  lemma AbortRestores(p: Host -> bool, base: Host, n: Node, j: Journal)
    requires Reversible(p, base, j.undo) && p(n.host) && n.tape == []
    ensures AbortNode(n, j) == (Node(base, None, []), Failed)
  {
    var (n1, v) := WriteJournal(n, Some(j.(phase := RollingBack)));
    assert Passes(j.undo, Env(n.host, [])) == (Env(base, []), Fine);
  }

  lemma {:induction false} FailureIsUndone(p: Host -> bool, base: Host, commands: seq<Command>, n: Node, j: Journal)
    requires Stable(p, base, commands, j.undo) && Reversible(p, base, j.undo) && p(n.host)
    requires j.completed <= |commands| && FailsAt(n, j, commands).Some?
    requires FailsAt(n, j, commands).value.0.tape == []
    ensures ApplyFrom(n, j, commands) == (Node(base, None, []), Failed)
    decreases |commands| - j.completed
  {
    var (e, v) := Try(commands[j.completed], Env(n.host, n.tape), false);
    var n1 := Node(e.host, n.journal, e.tape);
    assert p(After(commands[j.completed], n.host));
    if v.Failed? {
      AbortRestores(p, base, n1, j);
    } else {
      var j1 := j.(completed := j.completed + 1);
      FailureIsUndone(p, base, commands, WriteJournal(n1, Some(j1)).0, j1);
    }
  }

  /** A command that fails, with or without effect, makes the stage undo itself: if nothing goes wrong
      afterwards, the host is as before, no journal is left, and the stage reports failure. */
  lemma FailedStageIsUndone(job: Job, n: Node, operation: string)
    requires Fits(job, n.host)
    requires var j := Journal(operation, Applying, UndoAll(job.borrows), 0);
             var (n1, v) := WriteJournal(n, Some(j));
             v.Fine? && FailsAt(n1, j, Commands(job)).Some? && FailsAt(n1, j, Commands(job)).value.0.tape == []
    ensures ApplyNode(n, operation, PlanFor(Visible(n.host), job)) == (Node(n.host, None, []), Failed)
  {
    var j := Journal(operation, Applying, UndoAll(job.borrows), 0);
    PlanningLeavesNothingUndone(job, n.host);
    JobIsStable(job, n.host);
    JobIsReversible(job, n.host);
    FailureIsUndone(h => Undoable(job, n.host, h), n.host, Commands(job), WriteJournal(n, Some(j)).0, j);
  }

  lemma {:induction false} QuietApply(p: Host -> bool, base: Host, commands: seq<Command>, n: Node, j: Journal)
    requires Stable(p, base, commands, j.undo) && Reversible(p, base, j.undo) && p(n.host) && n.tape == []
    requires j.completed <= |commands|
    ensures var (n1, v) := ApplyFrom(n, j, commands);
            if v.Fine? then n1.tape == [] else n1 == Node(base, None, []) && v.Failed?
    decreases |commands| - j.completed
  {
    if j.completed < |commands| {
      var (e, v) := Try(commands[j.completed], Env(n.host, n.tape), false);
      var n1 := Node(e.host, n.journal, e.tape);
      assert p(After(commands[j.completed], n.host));
      if v.Failed? {
        AbortRestores(p, base, n1, j);
      } else {
        var j1 := j.(completed := j.completed + 1);
        QuietApply(p, base, commands, WriteJournal(n1, Some(j1)).0, j1);
      }
    }
  }

  /** Without any disturbance a stage either succeeds or leaves nothing behind. */
  lemma UndisturbedStage(job: Job, host: Host, journal: Option<Journal>, operation: string)
    requires Fits(job, host)
    ensures var (n1, v) := ApplyNode(Node(host, journal, []), operation, PlanFor(Visible(host), job));
            if v.Fine? then n1.tape == [] else n1 == Node(host, None, []) && v.Failed?
  {
    var j := Journal(operation, Applying, UndoAll(job.borrows), 0);
    PlanningLeavesNothingUndone(job, host);
    JobIsStable(job, host);
    JobIsReversible(job, host);
    QuietApply(h => Undoable(job, host, h), host, Commands(job), Node(host, Some(j), []), j);
  }

  // ----- Runs

  datatype Call =
    | Stage(operation: string, fingerprint: map<string, Link>, job: Job)
    | Commit
    | Lease(operation: string)
    | Recover
    | Start

  /** `origin` and `job` are history: the host before the operation that was staged last. */
  datatype World = World(host: Host, journal: Option<Journal>, alive: bool, origin: Host, job: Job)

  datatype Input = Input(call: Call, tape: seq<Event>)

  predicate Begins(w: World, call: Call)
  {
    call.Stage? && w.alive && Visible(w.host) == call.fingerprint
  }

  function Answer(w: World, i: Input): (Node, Verdict)
  {
    var n := Node(w.host, w.journal, i.tape);
    match i.call
    case Stage(operation, fingerprint, job) => ApplyNode(n, operation, PlanFor(fingerprint, job))
    case Commit => CommitNode(n)
    case Lease(operation) => LeaseNode(n, operation)
    case Recover => RecoverNode(n)
    case Start => StartNode(n)
  }

  /** A dead process answers nothing until it is started again. */
  function Perform(w: World, i: Input): World
  {
    if !w.alive && !i.call.Start? then w
    else
      var (n, v) := Answer(w, i);
      World(n.host, n.journal, !v.Died?,
            if Begins(w, i.call) then w.host else w.origin,
            if Begins(w, i.call) then i.call.job else w.job)
  }

  function PerformAll(w: World, inputs: seq<Input>): World
    decreases |inputs|
  {
    if inputs == [] then w else PerformAll(Perform(w, inputs[0]), inputs[1..])
  }

  /** A plan is staged only while no journal is present, on the host it was planned for. */
  ghost predicate Clear(w: World, i: Input)
  {
    Begins(w, i.call) ==> w.journal.None? && Fits(i.call.job, w.host)
  }

  ghost predicate AllClear(w: World, inputs: seq<Input>)
    decreases |inputs|
  {
    inputs == [] || (Clear(w, inputs[0]) && AllClear(Perform(w, inputs[0]), inputs[1..]))
  }

  ghost predicate Safe(w: World)
  {
    Secured(w.job, w.origin, w.host, w.journal)
  }

  lemma StageKeepsSecured(job: Job, n: Node, operation: string)
    requires Fits(job, n.host) && n.journal.None?
    ensures var n1 := ApplyNode(n, operation, PlanFor(Visible(n.host), job)).0;
            Secured(job, n.host, n1.host, n1.journal)
  {
    var j := Journal(operation, Applying, UndoAll(job.borrows), 0);
    var (n1, v) := WriteJournal(n, Some(j));
    PlanningLeavesNothingUndone(job, n.host);
    if v.Fine? {
      ApplyKeepsSecured(job, n.host, n1, j);
    }
  }

  lemma StepKeepsSafe(w: World, i: Input)
    requires Safe(w) && Clear(w, i)
    ensures Safe(Perform(w, i))
  {
    if w.alive || i.call.Start? {
      var n := Node(w.host, w.journal, i.tape);
      match i.call
      case Stage(operation, _, job) =>
        if Begins(w, i.call) {
          StageKeepsSecured(job, n, operation);
        }
      case Commit =>
      case _ =>
        if n.journal.Some? {
          RollbackKeepsSecured(w.job, w.origin, n, n.journal.value.undo);
        }
    }
  }

  /** The journal invariant over every run in which plans are staged on a clear node. */
  lemma {:induction false} RunKeepsSafe(w: World, inputs: seq<Input>)
    requires Safe(w) && AllClear(w, inputs)
    ensures Safe(PerformAll(w, inputs))
    decreases |inputs|
  {
    if inputs != [] {
      StepKeepsSafe(w, inputs[0]);
      RunKeepsSafe(Perform(w, inputs[0]), inputs[1..]);
    }
  }

  lemma SafeCanBeUndone(w: World, i: Input)
    requires Safe(w) && i.tape == []
    requires if i.call.Start? then w.journal.None? || !w.journal.value.phase.Prepared? else i.call.Recover? && w.alive
    ensures var w1 := Perform(w, i); w1.host == w.origin && w1.journal.None? && w1.alive
  {
    if w.journal.Some? {
      RollbackKeepsSecured(w.job, w.origin, Node(w.host, w.journal, []), w.journal.value.undo);
    }
  }

  /** After any such run, one undisturbed restart of an unprepared node, or one undisturbed
      rollback, leaves the host as it was before the operation and no journal. */
  lemma RunCanBeUndone(w: World, inputs: seq<Input>)
    requires Safe(w) && AllClear(w, inputs)
    ensures var w1 := PerformAll(w, inputs);
            && (w1.journal.None? || !w1.journal.value.phase.Prepared? ==>
                  var w2 := Perform(w1, Input(Start, []));
                  w2.host == w1.origin && w2.journal.None? && w2.alive)
            && (w1.alive ==>
                  var w2 := Perform(w1, Input(Recover, []));
                  w2.host == w1.origin && w2.journal.None? && w2.alive)
  {
    RunKeepsSafe(w, inputs);
    var w1 := PerformAll(w, inputs);
    if w1.journal.None? || !w1.journal.value.phase.Prepared? {
      SafeCanBeUndone(w1, Input(Start, []));
    }
    if w1.alive {
      SafeCanBeUndone(w1, Input(Recover, []));
    }
  }

  /** Restart and lease expiry never undo a prepared operation, whatever the events. */
  lemma PreparedSurvives(w: World, i: Input)
    requires w.journal.Some? && w.journal.value.phase.Prepared?
    requires i.call.Start? || i.call.Lease?
    ensures Perform(w, i).host == w.host && Perform(w, i).journal == w.journal
  {
  }

  /** An undisturbed lease expiry undoes the operation it was armed for, if that is not prepared. */
  lemma LeaseUndoes(w: World, operation: string)
    requires Safe(w) && w.alive && w.journal.Some? && w.journal.value.operation == operation
    requires w.journal.value.phase.Applying? || w.journal.value.phase.Staged?
    ensures var w1 := Perform(w, Input(Lease(operation), [])); w1.host == w.origin && w1.journal.None?
  {
    RollbackKeepsSecured(w.job, w.origin, Node(w.host, w.journal, []), w.journal.value.undo);
  }

  // ----- Where the guard on staging matters

  /** What an undisturbed recovery would leave. */
  function RecoveredHost(w: World): Host
  {
    RecoverNode(Node(w.host, w.journal, [])).0.host
  }

  /** Nothing is staged in between. */
  predicate Unstaged(inputs: seq<Input>)
  {
    forall k :: 0 <= k < |inputs| ==> !inputs[k].call.Stage?
  }

  lemma {:induction false} UnstagedKeepsOrigin(w: World, inputs: seq<Input>)
    requires Safe(w) && Unstaged(inputs)
    ensures var w1 := PerformAll(w, inputs); Safe(w1) && w1.origin == w.origin
    decreases |inputs|
  {
    if inputs != [] {
      StepKeepsSafe(w, inputs[0]);
      UnstagedKeepsOrigin(Perform(w, inputs[0]), inputs[1..]);
    }
  }

  lemma SafeRecovers(w: World)
    requires Safe(w)
    ensures RecoveredHost(w) == w.origin
  {
    if w.journal.Some? {
      RollbackKeepsSecured(w.job, w.origin, Node(w.host, w.journal, []), w.journal.value.undo);
    }
  }

  /** The guard on staging only concerns what the earlier operation leaves behind: the stage itself
      writes the journal whatever journal was there. */
  lemma UnguardedStageIsSafe(w: World, i: Input)
    requires Safe(w) && Begins(w, i.call) && Fits(i.call.job, w.host) && Head(i.tape).Go?
    ensures Safe(Perform(w, i)) && Perform(w, i).origin == w.host
  {
    var cleared := w.(journal := None, origin := w.host);
    assert Begins(cleared, i.call);
    StepKeepsSafe(cleared, i);
    assert Perform(cleared, i) == Perform(w, i);
  }

  /** Some run without another stage, followed by a recovery, leads to `target`. */
  ghost predicate CanReturnTo(w: World, target: Host)
  {
    exists inputs: seq<Input> :: Unstaged(inputs) && RecoveredHost(PerformAll(w, inputs)) == target
  }

  /** Staging without the guard: the journal of the earlier operation is overwritten. Whatever
      commits, leases, crashes, restarts and recoveries follow, recovery leads to the host at the
      time of staging; so a way back to the host before the earlier operation is left if and only
      if the two hosts are the same. */
  lemma StagingKeepsOriginIff(w: World, i: Input)
    requires Safe(w) && Begins(w, i.call) && Fits(i.call.job, w.host) && Head(i.tape).Go?
    ensures forall inputs: seq<Input> :: Unstaged(inputs) ==> RecoveredHost(PerformAll(Perform(w, i), inputs)) == w.host
    ensures CanReturnTo(Perform(w, i), w.origin) <==> w.host == w.origin
  {
    var w1 := Perform(w, i);
    UnguardedStageIsSafe(w, i);
    forall inputs: seq<Input> | Unstaged(inputs)
      ensures RecoveredHost(PerformAll(w1, inputs)) == w.host
    {
      UnstagedKeepsOrigin(w1, inputs);
      SafeRecovers(PerformAll(w1, inputs));
    }
    assert Unstaged([]) && RecoveredHost(PerformAll(w1, [])) == w.host;
  }
}
