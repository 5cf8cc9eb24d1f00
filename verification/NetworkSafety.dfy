/** Undo is crash-safe: from every state that interrupted preparations and interrupted rollbacks
    can leave behind, the rollback list brings the host back to its state before the plan. */
module NetworkSafety {
  import opened Base
  import opened HostModel
  import opened NetworkPlan
  import opened NetworkOps

  /** Interfaces inside a namespace imply that the namespace exists; offloads are consistent. */
  ghost predicate WellFormed(h: Host)
  {
    forall d :: d in h.links ==>
      Consistent(h.links[d].enabled)
      && (h.links[d].place.Inside? ==> h.links[d].place.ns in h.namespaces)
  }

  /** `i` describes `link` correctly, MTU included, and lists every offload that a plan changes. */
  ghost predicate Describes(i: Interface, link: Link, ethtool: bool)
  {
    && i.mtu == Some(link.mtu)
    && i.linkUp == link.up
    && i.addresses == link.addresses
    && (forall f :: f in i.offloads ==> i.offloads[f] == (f in link.enabled))
    && (ethtool ==> forall f: Feature :: f in i.offloads)
  }

  ghost predicate Distinct(borrows: seq<Borrow>)
  {
    forall i, j :: 0 <= i < j < |borrows| ==> borrows[i].dev != borrows[j].dev && borrows[i].ns != borrows[j].ns
  }

  /** The job was planned for host `h`: every borrowed interface is unaddressed in the root
      namespace and correctly described, and the namespace names are unused. */
  ghost predicate Fits(job: Job, h: Host)
  {
    && WellFormed(h)
    && Distinct(job.borrows)
    && forall i :: 0 <= i < |job.borrows| ==> FitsOne(job.borrows[i], job.ethtool, h)
  }

  ghost predicate FitsOne(b: Borrow, ethtool: bool, h: Host)
  {
    && IsRoot(h, b.dev)
    && h.links[b.dev].addresses == []
    && Describes(b.saved, h.links[b.dev], ethtool)
    && b.ns !in h.namespaces
  }

  ghost predicate Borrows(job: Job, dev: string)
  {
    exists i :: 0 <= i < |job.borrows| && job.borrows[i].dev == dev
  }

  ghost predicate Names(job: Job, ns: string)
  {
    exists i :: 0 <= i < |job.borrows| && job.borrows[i].ns == ns
  }

  ghost predicate Bounded(b: Borrow, ethtool: bool, base: Link, now: Link, namespaces: set<string>)
  {
    && (now.place == Root || (now.place == Inside(b.ns) && b.ns in namespaces))
    && (now.place == Root ==> now.addresses == [])
    && Consistent(now.enabled)
    && (!ethtool ==> now.enabled == base.enabled)
  }

  /** What no execution of the job's commands, complete or not, can change. */
  ghost predicate Undoable(job: Job, base: Host, h: Host)
  {
    && h.links.Keys == base.links.Keys
    && base.namespaces <= h.namespaces
    && (forall ns :: ns in h.namespaces ==> ns in base.namespaces || Names(job, ns))
    && (forall d :: d in h.links && !Borrows(job, d) ==> h.links[d] == base.links[d])
    && (forall i :: 0 <= i < |job.borrows| ==>
          var b := job.borrows[i];
          b.dev in h.links && Bounded(b, job.ethtool, base.links[b.dev], h.links[b.dev], h.namespaces))
  }

  /** `c` is one of the commands planned for `b`. */
  ghost predicate Belongs(c: Command, b: Borrow, ethtool: bool)
  {
    match c
    case ProbeAddress(_, _) => true
    case LoopbackUp(_) => true
    case AddNamespace(ns) => ns == b.ns
    case DeleteNamespace(ns) => ns == b.ns
    case MoveIn(dev, ns) => dev == b.dev && ns == b.ns
    case ConfigureLink(ns, dev, _) => dev == b.dev && ns == b.ns
    case AddAddress(ns, dev, _) => dev == b.dev && ns == b.ns
    case DisableFeature(ns, dev, _) => dev == b.dev && ns == b.ns && ethtool
    case DeleteAddress(ns, dev, _) => dev == b.dev && ns == b.ns
    case MoveOut(ns, dev) => dev == b.dev && ns == b.ns
    case SetFeature(dev, f, on) => dev == b.dev && f in b.saved.offloads && b.saved.offloads[f] == on
    case SetMtu(dev, mtu) => dev == b.dev && b.saved.mtu == Some(mtu)
    case SetLink(dev, up) => dev == b.dev && b.saved.linkUp == up
  }

  /** Commands that leave the set of namespaces alone and touch one interface. */
  ghost predicate Restoration(c: Command)
  {
    c.DeleteAddress? || c.MoveOut? || c.SetFeature? || c.SetMtu? || c.SetLink?
  }

  lemma PlanningLeavesNothingUndone(job: Job, base: Host)
    requires Fits(job, base)
    ensures Undoable(job, base, base)
  {
  }

  /** The borrowed interface `b` is where interrupted work can have left it. */
  ghost predicate Held(b: Borrow, ethtool: bool, base: Link, h: Host)
  {
    b.dev in h.links && Bounded(b, ethtool, base, h.links[b.dev], h.namespaces)
  }

  /** `after` differs from `before` in the link of `dev` at most. */
  ghost predicate OnlyLink(before: Host, after: Host, dev: string)
  {
    && after.namespaces == before.namespaces
    && after.links.Keys == before.links.Keys
    && forall d :: d in before.links && d != dev ==> after.links[d] == before.links[d]
  }

  /** Changing one borrowed link within its bounds keeps the whole host undoable. */
  lemma OneLinkKeepsUndoable(job: Job, base: Host, k: nat, h: Host, h': Host)
    requires Fits(job, base) && Undoable(job, base, h) && k < |job.borrows|
    requires var b := job.borrows[k];
             OnlyLink(h, h', b.dev) && b.dev in base.links && Held(b, job.ethtool, base.links[b.dev], h')
    ensures Undoable(job, base, h')
  {
    var b := job.borrows[k];
    assert Borrows(job, b.dev);
    forall i | 0 <= i < |job.borrows|
      ensures var b := job.borrows[i];
              b.dev in h'.links && Bounded(b, job.ethtool, base.links[b.dev], h'.links[b.dev], h'.namespaces)
    {
      if i != k {
        assert job.borrows[i].dev != b.dev;
      }
    }
  }

  /** The final state that one restoration command of `b` asks for. */
  ghost predicate Established(c: Command, link: Link)
  {
    match c
    case MoveOut(_, _) => link.place == Root && link.addresses == []
    case SetFeature(_, f, on) => (f in link.enabled) == on
    case SetMtu(_, mtu) => link.mtu == mtu
    case SetLink(_, up) => link.up == up
    case _ => true
  }

  /** Everything else that a restoration command leaves as it was. */
  ghost predicate Spared(c: Command, old': Link, now: Link)
  {
    match c
    case SetFeature(_, f, on) =>
      now == old'.(enabled := now.enabled)
      && (now.enabled == old'.enabled
          || now.enabled == if on then old'.enabled + {f} else Disable(old'.enabled, f))
    case SetMtu(_, mtu) => now == old'.(mtu := now.mtu)
    case SetLink(_, up) => now == old'.(up := now.up)
    case _ => true
  }

  /** What `b` was before: described correctly and with consistent offloads. */
  ghost predicate Known(b: Borrow, ethtool: bool, base: Link)
  {
    Describes(b.saved, base, ethtool) && Consistent(base.enabled)
  }

  /** The link of the interface after a restoration command that takes effect. */
  function Restored(c: Command, link: Link): Link
  {
    match c
    case DeleteAddress(_, _, a) => link.(addresses := Forget(link.addresses, a))
    case MoveOut(_, _) => Moved(link, Root)
    case SetFeature(_, f, on) => link.(enabled := if on then link.enabled + {f} else Disable(link.enabled, f))
    case SetMtu(_, mtu) => link.(mtu := mtu)
    case SetLink(_, up) => link.(up := up)
    case _ => link
  }

  lemma UpdateTouchesOne(h: Host, dev: string, link: Link)
    requires dev in h.links
    ensures OnlyLink(h, Update(h, dev, link), dev) && Update(h, dev, link).links[dev] == link
  {
  }

  /** When a restoration command takes effect, is refused, or finds nothing to do. */
  lemma RunUpdates(b: Borrow, ethtool: bool, c: Command, h: Host)
    requires b.dev in h.links && Belongs(c, b, ethtool) && Restoration(c)
    ensures var link := h.links[b.dev];
            match Run(c, h)
            case Done(h') =>
              h' == Update(h, b.dev, Restored(c, link))
              && (c.MoveOut? || c.DeleteAddress? || link.place == Root) && !Blocked(c, link)
            case Refused => Blocked(c, link)
            case Absent => if c.MoveOut? then !IsInside(h, b.dev, b.ns) else c.DeleteAddress? || link.place != Root
  {
  }

  /** What the command leaves alone, and what it establishes, said of the link. */
  lemma LinkRestores(b: Borrow, ethtool: bool, base: Link, c: Command, link: Link, namespaces: set<string>)
    requires Known(b, ethtool, base) && Bounded(b, ethtool, base, link, namespaces)
    requires Belongs(c, b, ethtool) && Restoration(c) && !Blocked(c, link)
    requires c.MoveOut? || c.DeleteAddress? || link.place == Root
    ensures Bounded(b, ethtool, base, Restored(c, link), namespaces)
    ensures Spared(c, link, Restored(c, link)) && Established(c, Restored(c, link))
  {
    match c
    case SetFeature(_, f, on) =>
      if !ethtool {
        assert on == (f in base.enabled);
        assert (if on then base.enabled + {f} else Disable(base.enabled, f)) == base.enabled;
      }
    case _ =>
  }

  /** One restoration command on a host where its interface is held. */
  lemma RunRestores(b: Borrow, ethtool: bool, base: Link, c: Command, h: Host)
    requires Known(b, ethtool, base) && Held(b, ethtool, base, h)
    requires Belongs(c, b, ethtool) && Restoration(c)
    ensures var h' := After(c, h);
            && OnlyLink(h, h', b.dev)
            && Held(b, ethtool, base, h')
            && Spared(c, h.links[b.dev], h'.links[b.dev])
            && (Rooted(c, h.links[b.dev]) && !Run(c, h).Refused? ==> Established(c, h'.links[b.dev]))
            && (Run(c, h).Refused? ==> Blocked(c, h.links[b.dev]))
  {
    var link := h.links[b.dev];
    RunUpdates(b, ethtool, c, h);
    match Run(c, h)
    case Done(_) =>
      LinkRestores(b, ethtool, base, c, link, h.namespaces);
      UpdateTouchesOne(h, b.dev, Restored(c, link));
    case _ => NothingIsSpared(c, link);
  }

  /** Apart from the moves and deletions, restorations work on an interface in the root namespace. */
  ghost predicate Rooted(c: Command, link: Link)
  {
    c.MoveOut? || c.DeleteAddress? || link.place == Root
  }

  /** The one refusal there is: a segmentation offload while transmit checksums are off. */
  ghost predicate Blocked(c: Command, link: Link)
  {
    c.SetFeature? && c.on && NeedsChecksum(c.feature) && Tx !in link.enabled
  }

  lemma SparedTwice(c: Command, l0: Link, l1: Link, l2: Link)
    requires Spared(c, l0, l1) && Spared(c, l1, l2)
    ensures Spared(c, l0, l2)
  {
    if c.SetFeature? {
      assert Disable(Disable(l0.enabled, c.feature), c.feature) == Disable(l0.enabled, c.feature);
      assert l0.enabled + {c.feature} + {c.feature} == l0.enabled + {c.feature};
    }
  }

  /** One attempt: what it leaves alone, and when it has established the command's part. */
  lemma {:induction false} TryRestores(b: Borrow, ethtool: bool, base: Link, c: Command, e: Env)
    requires Known(b, ethtool, base) && Held(b, ethtool, base, e.host)
    requires Belongs(c, b, ethtool) && Restoration(c)
    ensures var (e1, v) := Try(c, e, true);
            && (e1.host == e.host || e1.host == After(c, e.host))
            && OnlyLink(e.host, e1.host, b.dev) && Held(b, ethtool, base, e1.host)
            && Spared(c, e.host.links[b.dev], e1.host.links[b.dev])
            && (Rooted(c, e.host.links[b.dev]) && v.Fine? ==> Established(c, e1.host.links[b.dev]))
            && (e.tape == [] && !Blocked(c, e.host.links[b.dev]) ==> v.Fine? && e1.tape == [])
  {
    RunRestores(b, ethtool, base, c, e.host);
    NothingIsSpared(c, e.host.links[b.dev]);
    TryOutcome(c, e);
  }

  lemma NothingIsSpared(c: Command, link: Link)
    ensures Spared(c, link, link)
  {
  }

  lemma TryOutcome(c: Command, e: Env)
    ensures var (e1, v) := Try(c, e, true);
            && (e1.host == e.host || e1.host == After(c, e.host))
            && (v.Fine? ==> e1.host == After(c, e.host) && !Run(c, e.host).Refused?)
            && (e.tape == [] ==> e1.tape == [] && (Run(c, e.host).Refused? || v.Fine?))
  {
  }

  lemma RootedStays(c: Command, before: Link, after: Link)
    requires Restoration(c) && Rooted(c, before) && Spared(c, before, after)
    ensures Rooted(c, after)
  {
  }

  lemma OnlyLinkTwice(h0: Host, h1: Host, h2: Host, dev: string)
    requires OnlyLink(h0, h1, dev) && OnlyLink(h1, h2, dev)
    ensures OnlyLink(h0, h2, dev)
  {
  }

  /** Whatever happens to its attempts, a command that is reported done has established its part. */
  lemma {:induction false} AttemptRestores(b: Borrow, ethtool: bool, base: Link, c: Command, e: Env, left: nat)
    requires Known(b, ethtool, base) && Held(b, ethtool, base, e.host)
    requires Belongs(c, b, ethtool) && Restoration(c)
    ensures var (e1, v) := Attempt(c, e, left);
            && OnlyLink(e.host, e1.host, b.dev)
            && Held(b, ethtool, base, e1.host)
            && Spared(c, e.host.links[b.dev], e1.host.links[b.dev])
            && (Rooted(c, e.host.links[b.dev]) && v.Fine? ==> Established(c, e1.host.links[b.dev]))
            && (e.tape == [] && left > 0 && !Blocked(c, e.host.links[b.dev]) ==> v.Fine? && e1.tape == [])
    decreases left
  {
    if left == 0 {
      NothingIsSpared(c, e.host.links[b.dev]);
    } else {
      TryRestores(b, ethtool, base, c, e);
      var (e1, v) := Try(c, e, true);
      if v.Failed? {
        AttemptRestores(b, ethtool, base, c, e1, left - 1);
        var e2 := Attempt(c, e1, left - 1).0;
        OnlyLinkTwice(e.host, e1.host, e2.host, b.dev);
        SparedTwice(c, e.host.links[b.dev], e1.host.links[b.dev], e2.host.links[b.dev]);
        if Rooted(c, e.host.links[b.dev]) {
          RootedStays(c, e.host.links[b.dev], e1.host.links[b.dev]);
        }
      }
    }
  }

  /** A list of restorations of `b`. */
  ghost predicate RestorationsOf(list: seq<Command>, b: Borrow, ethtool: bool)
  {
    forall i :: 0 <= i < |list| ==>
      Belongs(list[i], b, ethtool) && (Restoration(list[i]) || list[i].DeleteNamespace?)
  }

  /** Any pass over restorations of `b` changes `b` alone, whatever fails. */
  lemma {:induction false} PassTouchesOne(b: Borrow, ethtool: bool, base: Link, list: seq<Command>, e: Env, ok: bool)
    requires Known(b, ethtool, base) && Held(b, ethtool, base, e.host)
    requires RestorationsOf(list, b, ethtool)
    ensures var e1 := RestorePass(list, e, ok).0;
            OnlyLink(e.host, e1.host, b.dev) && Held(b, ethtool, base, e1.host)
  {
    if list != [] {
      if list[0].DeleteNamespace? {
        PassTouchesOne(b, ethtool, base, list[1..], e, ok);
      } else {
        var (e1, v) := Attempt(list[0], e, ATTEMPTS);
        AttemptRestores(b, ethtool, base, list[0], e, ATTEMPTS);
        if !v.Died? {
          PassTouchesOne(b, ethtool, base, list[1..], e1, ok && v.Fine?);
        }
      }
    }
  }

  /** A pass that has already failed stays failed. */
  lemma {:induction false} FailedPassStaysFailed(list: seq<Command>, e: Env)
    ensures !RestorePass(list, e, false).1.Fine?
  {
    if list != [] {
      if list[0].DeleteNamespace? {
        FailedPassStaysFailed(list[1..], e);
      } else {
        FailedPassStaysFailed(list[1..], Attempt(list[0], e, ATTEMPTS).0);
      }
    }
  }

  lemma {:induction false} PassConcat(a: seq<Command>, b: seq<Command>, e: Env, ok: bool)
    ensures var (e1, v) := RestorePass(a, e, ok);
            RestorePass(a + b, e, ok) == if v.Died? then (e1, Died) else RestorePass(b, e1, v.Fine?)
  {
    if a == [] {
      assert a + b == b;
    } else {
      assert (a + b)[1..] == a[1..] + b;
      if a[0].DeleteNamespace? {
        PassConcat(a[1..], b, e, ok);
      } else {
        var (e1, v) := Attempt(a[0], e, ATTEMPTS);
        if !v.Died? {
          PassConcat(a[1..], b, e1, ok && v.Fine?);
        }
      }
    }
  }

  /** A pass over one command. */
  lemma SinglePass(c: Command, e: Env)
    requires !c.DeleteNamespace?
    ensures RestorePass([c], e, true) == Attempt(c, e, ATTEMPTS)
  {
    assert [c][1..] == [];
    var (e1, v) := Attempt(c, e, ATTEMPTS);
    assert RestorePass([], e1, v.Fine?) == (e1, if v.Fine? then Fine else Failed);
  }

  /** Deleting addresses establishes nothing and, undisturbed, never fails. */
  lemma {:induction false} DeletionsPass(b: Borrow, ethtool: bool, base: Link, list: seq<Command>, e: Env)
    requires Known(b, ethtool, base) && Held(b, ethtool, base, e.host)
    requires forall i :: 0 <= i < |list| ==> list[i].DeleteAddress? && Belongs(list[i], b, ethtool)
    ensures var (e1, v) := RestorePass(list, e, true);
            e.tape == [] ==> v.Fine? && e1.tape == []
  {
    if list != [] && e.tape == [] {
      AttemptRestores(b, ethtool, base, list[0], e, ATTEMPTS);
      DeletionsPass(b, ethtool, base, list[1..], Attempt(list[0], e, ATTEMPTS).0);
    }
  }

  /** The features of `order` that were recorded are back at their recorded values. */
  ghost predicate Recovered(saved: Interface, link: Link, order: seq<Feature>)
  {
    forall i :: 0 <= i < |order| && order[i] in saved.offloads ==>
      (order[i] in link.enabled) == saved.offloads[order[i]]
  }

  lemma {:induction false} RestoresBelong(b: Borrow, ethtool: bool, at: nat)
    requires at <= 6
    ensures var list := Restores(b.dev, b.saved.offloads, RESTORE_ORDER[at..]);
            RestorationsOf(list, b, ethtool) && forall i :: 0 <= i < |list| ==> list[i].SetFeature?
    decreases 6 - at
  {
    if at < 6 {
      assert RESTORE_ORDER[at..][1..] == RESTORE_ORDER[at + 1..];
      RestoresBelong(b, ethtool, at + 1);
    }
  }

  /** Restoring a feature does not disturb those restored before it. */
  lemma EarlierFeaturesStay(saved: Interface, at: nat, before: Link, after: Link)
    requires at < 6 && RESTORE_ORDER[at] in saved.offloads
    requires Recovered(saved, before, RESTORE_ORDER[..at])
    requires var c := SetFeature("", RESTORE_ORDER[at], saved.offloads[RESTORE_ORDER[at]]);
             Spared(c, before, after) && Established(c, after)
    ensures Recovered(saved, after, RESTORE_ORDER[..at + 1])
  {
    forall i | 0 <= i < at + 1 && RESTORE_ORDER[i] in saved.offloads
      ensures (RESTORE_ORDER[i] in after.enabled) == saved.offloads[RESTORE_ORDER[i]]
    {
      if i < at {
        assert RESTORE_ORDER[..at][i] == RESTORE_ORDER[i];
      }
    }
  }

  /** Transmit checksums are restored before the features that the driver ties to them. */
  lemma ChecksumComesFirst(b: Borrow, ethtool: bool, base: Link, at: nat, h: Host)
    requires Known(b, ethtool, base) && Held(b, ethtool, base, h) && at < 6
    requires Recovered(b.saved, h.links[b.dev], RESTORE_ORDER[..at])
    requires RESTORE_ORDER[at] in b.saved.offloads
    ensures !Blocked(SetFeature(b.dev, RESTORE_ORDER[at], b.saved.offloads[RESTORE_ORDER[at]]), h.links[b.dev])
  {
    var f := RESTORE_ORDER[at];
    if b.saved.offloads[f] && NeedsChecksum(f) {
      assert at > 0 && RESTORE_ORDER[..at][0] == Tx;
      assert f in base.enabled && Tx in base.enabled;
    }
  }

  lemma {:induction false} FeaturesPass(b: Borrow, ethtool: bool, base: Link, at: nat, e: Env)
    requires Known(b, ethtool, base) && Held(b, ethtool, base, e.host) && at <= 6
    requires e.host.links[b.dev].place == Root
    requires Recovered(b.saved, e.host.links[b.dev], RESTORE_ORDER[..at])
    ensures var (e1, v) := RestorePass(Restores(b.dev, b.saved.offloads, RESTORE_ORDER[at..]), e, true);
            && (v.Fine? ==> b.dev in e1.host.links
                            && e1.host.links[b.dev]
                               == e.host.links[b.dev].(enabled := e1.host.links[b.dev].enabled)
                            && Recovered(b.saved, e1.host.links[b.dev], RESTORE_ORDER))
            && (e.tape == [] ==> v.Fine? && e1.tape == [])
    decreases 6 - at
  {
    if at == 6 {
      assert RESTORE_ORDER[..at] == RESTORE_ORDER;
      return;
    }
    var f := RESTORE_ORDER[at];
    assert RESTORE_ORDER[at..][1..] == RESTORE_ORDER[at + 1..];
    if f !in b.saved.offloads {
      assert RESTORE_ORDER[..at + 1] == RESTORE_ORDER[..at] + [f];
      assert Restores(b.dev, b.saved.offloads, RESTORE_ORDER[at..])
          == Restores(b.dev, b.saved.offloads, RESTORE_ORDER[at + 1..]);
      FeaturesPass(b, ethtool, base, at + 1, e);
      return;
    }
    var c := SetFeature(b.dev, f, b.saved.offloads[f]);
    var rest := Restores(b.dev, b.saved.offloads, RESTORE_ORDER[at + 1..]);
    PassConcat([c], rest, e, true);
    SinglePass(c, e);
    AttemptRestores(b, ethtool, base, c, e, ATTEMPTS);
    ChecksumComesFirst(b, ethtool, base, at, e.host);
    var (e1, v) := Attempt(c, e, ATTEMPTS);
    if v.Fine? {
      EarlierFeaturesStay(b.saved, at, e.host.links[b.dev], e1.host.links[b.dev]);
      FeaturesPass(b, ethtool, base, at + 1, e1);
    } else {
      FailedPassStaysFailed(rest, e1);
    }
  }

  lemma EveryFeatureIsRestored(f: Feature)
    ensures exists i :: 0 <= i < 6 && RESTORE_ORDER[i] == f
  {
    assert RESTORE_ORDER[0] == Tx && RESTORE_ORDER[1] == Rx && RESTORE_ORDER[2] == Tso;
    assert RESTORE_ORDER[3] == Gso && RESTORE_ORDER[4] == Gro && RESTORE_ORDER[5] == Lro;
  }

  /** With every recorded feature recovered, the offloads are those of the base link. */
  lemma RecoveredOffloadsEqual(b: Borrow, ethtool: bool, base: Link, now: Link, namespaces: set<string>)
    requires Known(b, ethtool, base) && Bounded(b, ethtool, base, now, namespaces)
    requires Recovered(b.saved, now, RESTORE_ORDER)
    ensures now.enabled == base.enabled
  {
    if ethtool {
      forall f: Feature
        ensures f in now.enabled <==> f in base.enabled
      {
        EveryFeatureIsRestored(f);
      }
    }
  }

  /** Undo(b) without the namespace deletion, in its three parts. */
  function Tailing(b: Borrow): seq<Command>
  {
    (if b.saved.mtu.Some? then [SetMtu(b.dev, b.saved.mtu.value)] else [])
    + [SetLink(b.dev, b.saved.linkUp), DeleteNamespace(b.ns)]
  }

  lemma UndoInParts(b: Borrow)
    ensures Undo(b) == Deletions(b.ns, b.dev, b.pool)
                       + ([MoveOut(b.ns, b.dev)]
                          + (Restores(b.dev, b.saved.offloads, RESTORE_ORDER) + Tailing(b)))
  {
  }

  lemma UndoIsRestorations(b: Borrow, ethtool: bool)
    ensures RestorationsOf(Undo(b), b, ethtool)
  {
    UndoInParts(b);
    assert RESTORE_ORDER[0..] == RESTORE_ORDER;
    RestoresBelong(b, ethtool, 0);
  }

  lemma TailingPass(b: Borrow, ethtool: bool, base: Link, e: Env)
    requires Known(b, ethtool, base) && Held(b, ethtool, base, e.host)
    requires e.host.links[b.dev].place == Root
    ensures var (e1, v) := RestorePass(Tailing(b), e, true);
            && (v.Fine? ==> b.dev in e1.host.links
                            && e1.host.links[b.dev] == e.host.links[b.dev].(mtu := base.mtu, up := base.up))
            && (e.tape == [] ==> v.Fine? && e1.tape == [])
  {
    var mtu, up, ns := SetMtu(b.dev, base.mtu), SetLink(b.dev, base.up), DeleteNamespace(b.ns);
    assert Tailing(b) == [mtu] + ([up] + [ns]);
    PassConcat([mtu], [up] + [ns], e, true);
    SinglePass(mtu, e);
    AttemptRestores(b, ethtool, base, mtu, e, ATTEMPTS);
    var (e1, v) := Attempt(mtu, e, ATTEMPTS);
    if v.Fine? {
      PassConcat([up], [ns], e1, true);
      SinglePass(up, e1);
      AttemptRestores(b, ethtool, base, up, e1, ATTEMPTS);
      var (e2, w) := Attempt(up, e1, ATTEMPTS);
      assert [ns][1..] == [];
      assert RestorePass([ns], e2, w.Fine?) == RestorePass([], e2, w.Fine?);
    } else {
      FailedPassStaysFailed([up] + [ns], e1);
    }
  }

  /** The restoration of one interface: reported done only if the interface is back as it was,
      and always done when nothing disturbs it. */
  lemma UndoRestoresOne(b: Borrow, ethtool: bool, base: Link, e: Env)
    requires Known(b, ethtool, base) && Held(b, ethtool, base, e.host)
    requires base.place == Root && base.addresses == []
    ensures var (e1, v) := RestorePass(Undo(b), e, true);
            && OnlyLink(e.host, e1.host, b.dev)
            && Held(b, ethtool, base, e1.host)
            && (v.Fine? ==> e1.host.links[b.dev] == base)
            && (e.tape == [] ==> v.Fine? && e1.tape == [])
  {
    UndoIsRestorations(b, ethtool);
    PassTouchesOne(b, ethtool, base, Undo(b), e, true);
    UndoInParts(b);
    var deletions := Deletions(b.ns, b.dev, b.pool);
    var features := Restores(b.dev, b.saved.offloads, RESTORE_ORDER);
    var out := MoveOut(b.ns, b.dev);
    PassConcat(deletions, [out] + (features + Tailing(b)), e, true);
    PassTouchesOne(b, ethtool, base, deletions, e, true);
    DeletionsPass(b, ethtool, base, deletions, e);
    var (e1, v1) := RestorePass(deletions, e, true);
    if !v1.Fine? {
      FailedPassStaysFailed([out] + (features + Tailing(b)), e1);
      return;
    }
    PassConcat([out], features + Tailing(b), e1, true);
    SinglePass(out, e1);
    AttemptRestores(b, ethtool, base, out, e1, ATTEMPTS);
    var (e2, v2) := Attempt(out, e1, ATTEMPTS);
    if !v2.Fine? {
      FailedPassStaysFailed(features + Tailing(b), e2);
      return;
    }
    AfterMoveOut(b, ethtool, base, e2);
  }

  /** The rest of the restoration once the interface is back in the root namespace. */
  lemma AfterMoveOut(b: Borrow, ethtool: bool, base: Link, e: Env)
    requires Known(b, ethtool, base) && Held(b, ethtool, base, e.host)
    requires base.place == Root && base.addresses == []
    requires e.host.links[b.dev].place == Root
    ensures var features := Restores(b.dev, b.saved.offloads, RESTORE_ORDER);
            var (e1, v) := RestorePass(features + Tailing(b), e, true);
            && (v.Fine? ==> b.dev in e1.host.links && e1.host.links[b.dev] == base)
            && (e.tape == [] ==> v.Fine? && e1.tape == [])
  {
    var features := Restores(b.dev, b.saved.offloads, RESTORE_ORDER);
    assert RESTORE_ORDER[0..] == RESTORE_ORDER;
    PassConcat(features, Tailing(b), e, true);
    RestoresBelong(b, ethtool, 0);
    PassTouchesOne(b, ethtool, base, features, e, true);
    FeaturesPass(b, ethtool, base, 0, e);
    var (e1, v1) := RestorePass(features, e, true);
    if v1.Fine? {
      RecoveredOffloadsEqual(b, ethtool, base, e1.host.links[b.dev], e1.host.namespaces);
      TailingPass(b, ethtool, base, e1);
    } else {
      FailedPassStaysFailed(Tailing(b), e1);
    }
  }
}
