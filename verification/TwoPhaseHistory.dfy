/** What the failure half of two-phase apply achieves: the history of a run says whom control
    contacted and what the agents carried out, and the final state is read off from it. */
module TwoPhaseHistory {
  import opened Base
  import opened HostModel
  import opened NetworkPlan
  import opened NetworkOps
  import opened NetworkSafety
  import opened NetworkRuns
  import opened NetworkOutcome
  import opened NetworkLimits
  import opened TwoPhase

  /** Control tried to send this command; `sent` is false when the node could not be reached. */
  datatype Contact = Contact(ticket: Ticket, sent: bool)

  /** Computed from a run, never consulted by it.
      `contacts`: the commands of control, in order.
      `confirmed`: the nodes whose stage control has heard to be successful.
      `staged`: the nodes that answered their stage with success.
      `committed`: a commit took effect, whatever it reported.
      `undone`: a rollback command took effect, whatever it reported.
      `died`: the process died. `lapsed`: the lease task ran.
      `quiet`: commands handled while nothing went wrong.
      `calm`: since its stage was handled, the node has failed that stage, run its lease task or
      restarted while nothing went wrong. */
  datatype History = History(contacts: seq<Contact>, confirmed: seq<nat>, staged: set<nat>, committed: set<nat>,
                             undone: set<nat>, died: set<nat>, lapsed: set<nat>, quiet: set<Ticket>, calm: set<nat>)

  const UNWRITTEN := History([], [], {}, {}, {}, {}, {}, {}, {})

  function With(nodes: set<nat>, n: nat, condition: bool): set<nat>
  {
    if condition then nodes + {n} else nodes
  }

  /** The event writes the journal, whether or not it is seen to. */
  predicate Writes(tape: seq<Event>)
  {
    Head(tape).Go? || Head(tape).LateError?
  }

  predicate CommitTakes(w: World, tape: seq<Event>)
  {
    w.journal.Some? && w.journal.value.phase.Staged? && Writes(tape)
  }

  predicate UndoTakes(w: World, tape: seq<Event>)
  {
    w.journal.Some?
    && var (e, v) := Passes(w.journal.value.undo, Env(w.host, tape));
    v.Fine? && Writes(e.tape)
  }

  function NoteHandled(h: History, a: Agent, n: nat, operation: string, order: Order, tape: seq<Event>): History
    requires a.inbox != []
  {
    var t := a.inbox[0];
    var v := Answer(a.world, Input(CallFor(operation, t, order), tape)).1;
    h.(staged := With(h.staged, n, t.kind.DoStage? && v.Fine?),
       committed := With(h.committed, n, t.kind.DoCommit? && CommitTakes(a.world, tape)),
       undone := With(h.undone, n, t.kind.DoRollback? && UndoTakes(a.world, tape)),
       died := With(h.died, n, v.Died?),
       quiet := if tape == [] then h.quiet + {t} else h.quiet,
       calm := if t.kind.DoStage? then With(h.calm - {n}, n, tape == [] && !v.Fine?) else h.calm)
  }

  function NoteLease(h: History, a: Agent, n: nat, operation: string, tape: seq<Event>): History
  {
    h.(lapsed := h.lapsed + {n},
       died := With(h.died, n, Answer(a.world, Input(Lease(operation), tape)).1.Died?),
       calm := With(h.calm, n, tape == []))
  }

  /** What `action`, taken in `s`, adds to the history. */
  function Note(h: History, s: System, action: Action): History
    requires |s.agents| == |s.orders|
  {
    match action
    case Sends =>
      if s.waiting.Some? || !Active(s.progress) || Wanted(s.progress, s.next).node >= |s.agents| then h
      else h.(contacts := h.contacts + [Contact(Wanted(s.progress, s.next), true)])
    case Unreachable =>
      if s.waiting.Some? || !Active(s.progress) then h
      else h.(contacts := h.contacts + [Contact(Wanted(s.progress, s.next), false)])
    case Hears(reply) =>
      if reply in s.replies && s.waiting == Some(reply.ticket) && reply.ok && reply.ticket.kind.DoStage? then
        h.(confirmed := h.confirmed + [reply.ticket.node])
      else h
    case Handles(n, tape) =>
      if n < |s.agents| && s.agents[n].inbox != [] && s.agents[n].world.alive then
        NoteHandled(h, s.agents[n], n, s.operation, s.orders[n], tape)
      else h
    case LeaseFires(n, tape) =>
      if n < |s.agents| && s.agents[n].armed && s.agents[n].world.alive then
        NoteLease(h, s.agents[n], n, s.operation, tape)
      else h
    case Crashes(n) => h.(died := h.died + {n})
    case Starts(n, tape) =>
      if n < |s.agents| && !s.agents[n].world.alive then h.(calm := With(h.calm, n, tape == [])) else h
    case _ => h
  }

  function Chronicle(s: System, actions: seq<Action>, h: History): History
    requires |s.agents| == |s.orders|
    decreases |actions|
  {
    if actions == [] then h else Chronicle(Step(s, actions[0]), actions[1..], Note(h, s, actions[0]))
  }

  // ----- What control does

  function Calls(kind: Kind, count: nat): (r: seq<(Kind, nat)>)
    ensures |r| == count
  {
    seq(count, i => (kind, i))
  }

  function Made(contacts: seq<Contact>): (r: seq<(Kind, nat)>)
    ensures |r| == |contacts|
  {
    seq(|contacts|, i requires 0 <= i < |contacts| => (contacts[i].ticket.kind, contacts[i].ticket.node))
  }

  function Nodes(count: nat): seq<nat>
  {
    seq(count, i => i)
  }

  lemma NodesHold(count: nat, n: nat)
    ensures n in Nodes(count) <==> n < count
  {
    if n < count {
      assert Nodes(count)[n] == n;
    }
  }

  /** `count` stages were confirmed, then a stage or a commit failed, then `undos` rollbacks were tried. */
  ghost predicate GaveUp(made: seq<(Kind, nat)>, count: nat, nodes: nat, undos: nat)
  {
    if count < nodes then made == Calls(DoStage, count + 1) + Calls(DoRollback, undos)
    else exists commits :: 0 < commits <= nodes
           && made == Calls(DoStage, nodes) + Calls(DoCommit, commits) + Calls(DoRollback, undos)
  }

  /** The calls made so far when control is at `p`, with `pending` (0 or 1) of them unanswered. */
  ghost predicate Follows(p: Progress, pending: nat, nodes: nat, made: seq<(Kind, nat)>, confirmed: seq<nat>)
  {
    match p
    case Staging(i) =>
      i < nodes && made == Calls(DoStage, i + pending) && confirmed == Nodes(i)
    case Committing(i) =>
      i < nodes && made == Calls(DoStage, nodes) + Calls(DoCommit, i + pending) && confirmed == Nodes(nodes)
    case Compensating(i, count) =>
      i < count <= nodes && GaveUp(made, count, nodes, i + pending) && confirmed == Nodes(count)
    case Succeeded =>
      pending == 0 && made == Calls(DoStage, nodes) + Calls(DoCommit, nodes) && confirmed == Nodes(nodes)
    case Abandoned =>
      pending == 0 && |confirmed| <= nodes && GaveUp(made, |confirmed|, nodes, |confirmed|)
      && confirmed == Nodes(|confirmed|)
  }

  lemma OneMoreCall(before: seq<(Kind, nat)>, kind: Kind, count: nat)
    ensures before + Calls(kind, count) + [(kind, count)] == before + Calls(kind, count + 1)
  {
  }

  lemma ContactFollows(p: Progress, nodes: nat, made: seq<(Kind, nat)>, confirmed: seq<nat>, t: Ticket)
    requires Active(p) && Follows(p, 0, nodes, made, confirmed) && t == Wanted(p, t.number)
    ensures Follows(p, 1, nodes, made + [(t.kind, t.node)], confirmed)
  {
    match p
    case Staging(i) =>
      assert Calls(DoStage, i) + [(DoStage, i)] == Calls(DoStage, i + 1);
    case Committing(i) =>
      OneMoreCall(Calls(DoStage, nodes), DoCommit, i);
    case Compensating(i, count) =>
      if count < nodes {
        OneMoreCall(Calls(DoStage, count + 1), DoRollback, i);
      } else {
        var commits :| 0 < commits <= nodes
                       && made == Calls(DoStage, nodes) + Calls(DoCommit, commits) + Calls(DoRollback, i);
        OneMoreCall(Calls(DoStage, nodes) + Calls(DoCommit, commits), DoRollback, i);
      }
  }

  lemma AdvanceFollows(p: Progress, nodes: nat, made: seq<(Kind, nat)>, confirmed: seq<nat>, ok: bool)
    requires Active(p) && Follows(p, 1, nodes, made, confirmed)
    ensures Follows(Advance(p, ok, nodes), 0, nodes, made,
                    if ok && p.Staging? then confirmed + [p.index] else confirmed)
  {
    match p
    case Staging(i) =>
      assert Nodes(i) + [i] == Nodes(i + 1);
      assert Calls(DoStage, i + 1) + Calls(DoRollback, 0) == Calls(DoStage, i + 1);
      assert Calls(DoStage, nodes) + Calls(DoCommit, 0) == Calls(DoStage, nodes);
    case Committing(i) =>
      var all := Calls(DoStage, nodes) + Calls(DoCommit, i + 1);
      assert all + Calls(DoRollback, 0) == all;
    case Compensating(i, count) =>
  }

  function Pending(s: System): nat
  {
    if s.waiting.Some? then 1 else 0
  }

  ghost predicate InOrder(s: System, h: History)
  {
    && Follows(s.progress, Pending(s), |s.agents|, Made(h.contacts), h.confirmed)
    && (s.waiting.Some? ==> Active(s.progress) && s.waiting.value == Wanted(s.progress, s.waiting.value.number))
  }

  lemma MadeAppend(contacts: seq<Contact>, c: Contact)
    ensures Made(contacts + [c]) == Made(contacts) + [(c.ticket.kind, c.ticket.node)]
  {
  }

  lemma ContactInOrder(s: System, h: History, sent: bool)
    requires |s.agents| == |s.orders| && InOrder(s, h) && s.waiting.None? && Active(s.progress)
    ensures var t := Wanted(s.progress, s.next);
            Follows(s.progress, 1, |s.agents|, Made(h.contacts + [Contact(t, sent)]), h.confirmed)
  {
    var t := Wanted(s.progress, s.next);
    MadeAppend(h.contacts, Contact(t, sent));
    ContactFollows(s.progress, |s.agents|, Made(h.contacts), h.confirmed, t);
  }

  lemma SendInOrder(s: System, h: History)
    requires |s.agents| == |s.orders| && InOrder(s, h)
    ensures InOrder(Step(s, Sends), Note(h, s, Sends))
  {
    if s.waiting.None? && Active(s.progress) {
      ContactInOrder(s, h, true);
    }
  }

  lemma UnreachableInOrder(s: System, h: History)
    requires |s.agents| == |s.orders| && InOrder(s, h)
    ensures InOrder(Step(s, Unreachable), Note(h, s, Unreachable))
  {
    if s.waiting.None? && Active(s.progress) {
      var t := Wanted(s.progress, s.next);
      ContactInOrder(s, h, false);
      AdvanceFollows(s.progress, |s.agents|, Made(h.contacts + [Contact(t, false)]), h.confirmed, false);
    }
  }

  lemma HearInOrder(s: System, reply: Reply, h: History)
    requires |s.agents| == |s.orders| && InOrder(s, h)
    ensures InOrder(Step(s, Hears(reply)), Note(h, s, Hears(reply)))
  {
    if reply in s.replies && s.waiting == Some(reply.ticket) {
      AdvanceFollows(s.progress, |s.agents|, Made(h.contacts), h.confirmed, reply.ok);
    }
  }

  lemma TimeOutInOrder(s: System, h: History)
    requires |s.agents| == |s.orders| && InOrder(s, h)
    ensures InOrder(Step(s, TimesOut), Note(h, s, TimesOut))
  {
    if s.waiting.Some? {
      AdvanceFollows(s.progress, |s.agents|, Made(h.contacts), h.confirmed, false);
    }
  }

  lemma {:induction false} AgentsLeaveControl(s: System, action: Action)
    requires |s.agents| == |s.orders|
    requires !action.Sends? && !action.Unreachable? && !action.Hears? && !action.TimesOut?
    ensures var s1 := Step(s, action);
            s1.progress == s.progress && s1.waiting == s.waiting && |s1.agents| == |s.agents|
  {
    OthersUntouched(s, action);
  }

  lemma {:induction false} AgentsContactNobody(s: System, action: Action, h: History)
    requires |s.agents| == |s.orders|
    requires !action.Sends? && !action.Unreachable? && !action.Hears? && !action.TimesOut?
    ensures Note(h, s, action).contacts == h.contacts && Note(h, s, action).confirmed == h.confirmed
  {
  }

  lemma {:induction false} AgentsInOrder(s: System, action: Action, h: History)
    requires |s.agents| == |s.orders| && InOrder(s, h)
    requires !action.Sends? && !action.Unreachable? && !action.Hears? && !action.TimesOut?
    ensures InOrder(Step(s, action), Note(h, s, action))
  {
    AgentsLeaveControl(s, action);
    AgentsContactNobody(s, action, h);
  }

  lemma StepInOrder(s: System, action: Action, h: History)
    requires |s.agents| == |s.orders| && InOrder(s, h)
    ensures InOrder(Step(s, action), Note(h, s, action))
  {
    match action
    case Sends => SendInOrder(s, h);
    case Unreachable => UnreachableInOrder(s, h);
    case Hears(reply) => HearInOrder(s, reply, h);
    case TimesOut => TimeOutInOrder(s, h);
    case _ => AgentsInOrder(s, action, h);
  }

  // ----- What the agents carry out

  ghost predicate AgentTold(a: Agent, n: nat, operation: string, h: History)
  {
    && (PreparedAgent(a) <==> n in h.committed && n !in h.undone)
    && (n in h.committed ==> a.touched)
    && (n in h.undone ==> a.touched && a.world.journal.None?)
    && (!a.world.alive ==> n in h.died)
    && (n in h.calm ==> a.world.journal.None? || PreparedAgent(a))
    && (a.armed ==> a.world.journal.None?
                    || (a.world.journal.value.operation == operation
                        && (a.world.journal.value.phase.Staged? || a.world.journal.value.phase.Prepared?)))
  }

  /** The lease of node `n` is armed, or its process died, or its lease task has run. */
  ghost predicate Bound(a: Agent, n: nat, h: History)
  {
    a.armed || n in h.died || n in h.lapsed
  }

  lemma StageOutcome(job: Job, host: Host, operation: string, tape: seq<Event>)
    requires Fits(job, host)
    ensures var (n1, v) := ApplyNode(Node(host, None, tape), operation, PlanFor(Visible(host), job));
            && (n1.journal.Some? ==> !n1.journal.value.phase.Prepared?)
            && (v.Fine? ==> n1.journal.Some? && n1.journal.value.phase.Staged?
                            && n1.journal.value.operation == operation)
            && (tape == [] && !v.Fine? ==> n1.journal.None?)
  {
    var j := Journal(operation, Applying, UndoAll(job.borrows), 0);
    var (n1, v) := WriteJournal(Node(host, None, tape), Some(j));
    PlanningLeavesNothingUndone(job, host);
    if v.Fine? {
      ApplyKeepsSecured(job, host, n1, j);
    }
    if tape == [] {
      UndisturbedStage(job, host, None, operation);
    }
  }

  /** A rollback removes the journal or leaves it; undisturbed, it removes it. */
  lemma RollbackOutcome(w: World, tape: seq<Event>)
    requires Safe(w) && w.journal.Some?
    ensures var (n1, v) := RollbackNode(Node(w.host, w.journal, tape), w.journal.value.undo);
            && (if UndoTakes(w, tape) then n1.journal.None? else n1.journal == w.journal)
            && (tape == [] ==> UndoTakes(w, tape) && v.Fine?)
  {
    RollbackRestores(w.job, w.origin, Env(w.host, tape));
  }

  lemma RecoverOutcome(w: World, tape: seq<Event>)
    requires Safe(w) && w.alive
    ensures var w1 := Perform(w, Input(Recover, tape));
            && (if UndoTakes(w, tape) then w1.journal.None? else w1.journal == w.journal)
            && (tape == [] ==> w1.journal.None? && Answer(w, Input(Recover, tape)).1.Fine?)
  {
    if w.journal.Some? {
      RollbackOutcome(w, tape);
    }
  }

  /** What the lease task leaves of an operation that is under way. */
  lemma LeaseOutcome(w: World, operation: string, tape: seq<Event>)
    requires Safe(w) && w.alive
    ensures var w1 := Perform(w, Input(Lease(operation), tape));
            && (w1.journal.None? || w1.journal == w.journal)
            && (w.journal.Some? && w.journal.value.phase.Prepared? ==> w1.journal == w.journal)
            && (tape == [] && w.journal.Some? && w.journal.value.operation == operation && w.journal.value.phase.Staged?
                ==> w1.journal.None?)
  {
    if w.journal.Some? {
      RollbackOutcome(w, tape);
    }
  }

  /** What a restart leaves of it. */
  lemma StartOutcome(w: World, tape: seq<Event>)
    requires Safe(w)
    ensures var w1 := Perform(w, Input(Start, tape));
            && (w1.journal.None? || w1.journal == w.journal)
            && (w.journal.Some? && w.journal.value.phase.Prepared? ==> w1.journal == w.journal)
            && (tape == [] ==> w1.journal.None? || w1.journal.value.phase.Prepared?)
  {
    if w.journal.Some? && !w.journal.value.phase.Prepared? {
      RollbackOutcome(w, tape);
    }
  }

  lemma CommitOutcome(w: World, tape: seq<Event>)
    requires w.alive
    ensures var w1 := Perform(w, Input(Commit, tape));
            if CommitTakes(w, tape) then w1.journal == Some(w.journal.value.(phase := Prepared))
            else w1.journal == w.journal
  {
  }

  lemma StageTold(a: Agent, n: nat, operation: string, order: Order, tape: seq<Event>, h: History, first: Host)
    requires AgentKept(a, n, order, first) && AgentTold(a, n, operation, h) && a.inbox != [] && a.world.alive
    requires a.inbox[0].kind.DoStage?
    ensures AgentTold(Settle(Handled(a, operation, order, tape)), n, operation,
                      NoteHandled(h, a, n, operation, order, tape))
  {
    assert !a.touched;
    if Stale(order, first) {
      StaleStageIsRefused(a.world, operation, order, tape);
    } else {
      CurrentPlanFits(order, first);
      StageOutcome(order.job, first, operation, tape);
    }
  }

  lemma CommitTold(a: Agent, n: nat, operation: string, order: Order, tape: seq<Event>, h: History, first: Host)
    requires AgentKept(a, n, order, first) && AgentTold(a, n, operation, h) && a.inbox != [] && a.world.alive
    requires a.inbox[0].kind.DoCommit?
    ensures AgentTold(Settle(Handled(a, operation, order, tape)), n, operation,
                      NoteHandled(h, a, n, operation, order, tape))
  {
    CommitOutcome(a.world, tape);
  }

  lemma UndoTold(a: Agent, n: nat, operation: string, order: Order, tape: seq<Event>, h: History, first: Host)
    requires AgentKept(a, n, order, first) && AgentTold(a, n, operation, h) && a.inbox != [] && a.world.alive
    requires a.inbox[0].kind.DoRollback?
    ensures AgentTold(Settle(Handled(a, operation, order, tape)), n, operation,
                      NoteHandled(h, a, n, operation, order, tape))
  {
    RecoverOutcome(a.world, tape);
  }

  lemma ExpireTold(s: System, n: nat, tape: seq<Event>, h: History, first: Host)
    requires n < |s.agents| == |s.orders| && AgentKept(s.agents[n], n, s.orders[n], first)
    requires AgentTold(s.agents[n], n, s.operation, h)
    ensures AgentTold(Expire(s, n, tape).agents[n], n, s.operation, Note(h, s, LeaseFires(n, tape)))
  {
    var a := s.agents[n];
    if a.armed && a.world.alive {
      LeaseOutcome(a.world, s.operation, tape);
    }
  }

  lemma StartTold(s: System, n: nat, tape: seq<Event>, h: History, first: Host)
    requires n < |s.agents| == |s.orders| && AgentKept(s.agents[n], n, s.orders[n], first)
    requires AgentTold(s.agents[n], n, s.operation, h)
    ensures AgentTold(Step(s, Starts(n, tape)).agents[n], n, s.operation, Note(h, s, Starts(n, tape)))
  {
    var a := s.agents[n];
    if !a.world.alive {
      StartOutcome(a.world, tape);
    }
  }

  /** The history says the same about node `n`. */
  ghost predicate SameFor(h: History, h1: History, n: nat)
  {
    && (n in h.committed <==> n in h1.committed) && (n in h.undone <==> n in h1.undone)
    && (n in h.staged <==> n in h1.staged) && (n in h.died <==> n in h1.died) && (n in h.lapsed <==> n in h1.lapsed)
    && (n in h.calm <==> n in h1.calm)
  }

  lemma NoteSparesOthers(s: System, action: Action, h: History, n: nat)
    requires |s.agents| == |s.orders| && (!Targets(s, action, n) || action.Sends? || action.Drops?)
    ensures SameFor(h, Note(h, s, action), n)
  {
  }

  lemma HandledTold(a: Agent, n: nat, operation: string, order: Order, tape: seq<Event>, h: History, first: Host)
    requires AgentKept(a, n, order, first) && AgentTold(a, n, operation, h)
    ensures a.inbox != [] && a.world.alive ==>
              AgentTold(Settle(Handled(a, operation, order, tape)), n, operation,
                        NoteHandled(h, a, n, operation, order, tape))
  {
    if a.inbox != [] && a.world.alive {
      match a.inbox[0].kind
      case DoStage => StageTold(a, n, operation, order, tape, h, first);
      case DoCommit => CommitTold(a, n, operation, order, tape, h, first);
      case DoRollback => UndoTold(a, n, operation, order, tape, h, first);
    }
  }

  lemma {:induction false} ControlTold(s: System, action: Action, n: nat, h: History)
    requires |s.agents| == |s.orders| && n < |s.agents| && AgentTold(s.agents[n], n, s.operation, h)
    requires Targets(s, action, n) && (action.Sends? || action.Crashes? || action.Drops?)
    ensures n < |Step(s, action).agents|
    ensures AgentTold(Step(s, action).agents[n], n, s.operation, Note(h, s, action))
  {
  }

  lemma {:induction false} HandlesTold(s: System, n: nat, tape: seq<Event>, h: History, first: Host)
    requires |s.agents| == |s.orders| && n < |s.agents| && AgentKept(s.agents[n], n, s.orders[n], first)
    requires AgentTold(s.agents[n], n, s.operation, h)
    ensures AgentTold(Handle(s, n, tape).agents[n], n, s.operation, Note(h, s, Handles(n, tape)))
  {
    HandledTold(s.agents[n], n, s.operation, s.orders[n], tape, h, first);
  }

  lemma {:induction false} TargetTold(s: System, action: Action, n: nat, h: History, first: seq<Host>)
    requires TwoPhase.Kept(s, first) && n < |s.agents| && Targets(s, action, n)
             && AgentTold(s.agents[n], n, s.operation, h)
    ensures n < |Step(s, action).agents|
    ensures AgentTold(Step(s, action).agents[n], n, s.operation, Note(h, s, action))
  {
    OthersUntouched(s, action);
    assert AgentKept(s.agents[n], n, s.orders[n], first[n]);
    match action
    case Handles(_, tape) => HandlesTold(s, n, tape, h, first[n]);
    case LeaseFires(_, tape) => ExpireTold(s, n, tape, h, first[n]);
    case Starts(_, tape) => StartTold(s, n, tape, h, first[n]);
    case _ => ControlTold(s, action, n, h);
  }

  ghost predicate AllTold(s: System, h: History)
  {
    forall n :: 0 <= n < |s.agents| ==> AgentTold(s.agents[n], n, s.operation, h)
  }

  lemma StepTold(s: System, action: Action, h: History, first: seq<Host>)
    requires TwoPhase.Kept(s, first) && AllTold(s, h)
    ensures AllTold(Step(s, action), Note(h, s, action))
  {
    OthersUntouched(s, action);
    forall n | 0 <= n < |s.agents|
      ensures AgentTold(Step(s, action).agents[n], n, s.operation, Note(h, s, action))
    {
      if Targets(s, action, n) {
        TargetTold(s, action, n, h, first);
      } else {
        NoteSparesOthers(s, action, h, n);
      }
    }
  }

  // ----- Leases

  ghost predicate AllBound(s: System, h: History)
  {
    && (forall n :: 0 <= n < |s.agents| && n in h.staged ==> Bound(s.agents[n], n, h))
    && (forall n :: n in h.confirmed ==> n in h.staged)
    && (forall r :: r in s.replies && r.ok && r.ticket.kind.DoStage? ==> r.ticket.node in h.staged)
  }

  lemma BoundStays(s: System, action: Action, h: History, n: nat)
    requires |s.agents| == |s.orders| && n < |s.agents| && AgentTold(s.agents[n], n, s.operation, h)
    requires n in h.staged ==> Bound(s.agents[n], n, h)
    ensures n < |Step(s, action).agents|
    ensures var h1 := Note(h, s, action); n in h1.staged ==> Bound(Step(s, action).agents[n], n, h1)
  {
    OthersUntouched(s, action);
  }

  lemma NewReplyIsStaged(s: System, action: Action, h: History, first: seq<Host>, r: Reply)
    requires TwoPhase.Kept(s, first) && r in Step(s, action).replies && r !in s.replies
             && r.ok && r.ticket.kind.DoStage?
    ensures r.ticket.node in Note(h, s, action).staged
  {
    var n := action.node;
    assert AgentKept(s.agents[n], n, s.orders[n], first[n]);
  }

  lemma StagedStays(s: System, action: Action, h: History)
    requires |s.agents| == |s.orders|
    ensures h.staged <= Note(h, s, action).staged
  {
  }

  lemma StepBound(s: System, action: Action, h: History, first: seq<Host>)
    requires TwoPhase.Kept(s, first) && AllTold(s, h) && AllBound(s, h)
    ensures AllBound(Step(s, action), Note(h, s, action))
  {
    OthersUntouched(s, action);
    StagedStays(s, action, h);
    var s1, h1 := Step(s, action), Note(h, s, action);
    forall n | 0 <= n < |s1.agents| && n in h1.staged
      ensures Bound(s1.agents[n], n, h1)
    {
      BoundStays(s, action, h, n);
    }
    forall r | r in s1.replies && r.ok && r.ticket.kind.DoStage?
      ensures r.ticket.node in h1.staged
    {
      if r !in s.replies {
        NewReplyIsStaged(s, action, h, first, r);
      }
    }
  }

  // ----- Rollbacks and commits

  /** A rollback handled while nothing went wrong was carried out. */
  ghost predicate QuietRollbacks(s: System, h: History)
  {
    forall t :: t in h.quiet && t.kind.DoRollback? ==> t.node < |s.agents| && s.agents[t.node].rolledBack
  }

  lemma StepQuiet(s: System, action: Action, h: History, first: seq<Host>)
    requires TwoPhase.Kept(s, first) && QuietRollbacks(s, h)
    ensures QuietRollbacks(Step(s, action), Note(h, s, action))
  {
    OthersUntouched(s, action);
    var s1, h1 := Step(s, action), Note(h, s, action);
    forall t | t in h1.quiet && t.kind.DoRollback?
      ensures t.node < |s1.agents| && s1.agents[t.node].rolledBack
    {
      if t in h.quiet {
        HistoryStep(s, action, t.node);
      } else {
        NewQuietRollback(s, action, h, first, t);
      }
    }
  }

  lemma NewQuietRollback(s: System, action: Action, h: History, first: seq<Host>, t: Ticket)
    requires TwoPhase.Kept(s, first) && t in Note(h, s, action).quiet && t !in h.quiet && t.kind.DoRollback?
    ensures t.node < |s.agents| == |Step(s, action).agents| && Step(s, action).agents[t.node].rolledBack
  {
    OthersUntouched(s, action);
    var n := action.node;
    assert AgentKept(s.agents[n], n, s.orders[n], first[n]);
    RecoverOutcome(s.agents[n].world, []);
  }

  /** Commits are sent only after every stage was confirmed. */
  ghost predicate CommitsAreLate(s: System, h: History)
  {
    && (forall n, k :: 0 <= n < |s.agents| && 0 <= k < |s.agents[n].inbox| && s.agents[n].inbox[k].kind.DoCommit? ==>
          |h.confirmed| == |s.agents|)
    && (h.committed != {} ==> |h.confirmed| == |s.agents|)
  }

  lemma ConfirmedStays(s: System, action: Action, h: History)
    requires |s.agents| == |s.orders| && InOrder(s, h) && |h.confirmed| == |s.agents|
    ensures Note(h, s, action).confirmed == h.confirmed
  {
  }

  lemma StepLate(s: System, action: Action, h: History)
    requires |s.agents| == |s.orders| && InOrder(s, h) && CommitsAreLate(s, h)
    ensures CommitsAreLate(Step(s, action), Note(h, s, action))
  {
    OthersUntouched(s, action);
    if |h.confirmed| == |s.agents| {
      ConfirmedStays(s, action, h);
    } else {
      NoCommitYet(s, action, h);
    }
  }

  lemma NoCommitYet(s: System, action: Action, h: History)
    requires |s.agents| == |s.orders| && InOrder(s, h) && |h.confirmed| != |s.agents| && h.committed == {}
    requires forall n, k :: 0 <= n < |s.agents| && 0 <= k < |s.agents[n].inbox| ==> !s.agents[n].inbox[k].kind.DoCommit?
    ensures Note(h, s, action).committed == {}
    ensures var s1 := Step(s, action);
            forall n, k :: 0 <= n < |s1.agents| && 0 <= k < |s1.agents[n].inbox| ==>
              !s1.agents[n].inbox[k].kind.DoCommit?
  {
    OthersUntouched(s, action);
  }

  // ----- Runs

  ghost predicate Told(s: System, h: History)
  {
    InOrder(s, h) && AllTold(s, h) && AllBound(s, h) && QuietRollbacks(s, h) && CommitsAreLate(s, h)
  }

  lemma InitialTold(s: System)
    requires Initial(s)
    ensures Told(s, UNWRITTEN)
  {
  }

  lemma {:induction false} RunTold(s: System, actions: seq<Action>, h: History, first: seq<Host>)
    requires TwoPhase.Kept(s, first) && Told(s, h)
    ensures TwoPhase.Kept(TwoPhase.Run(s, actions), first) && Told(TwoPhase.Run(s, actions), Chronicle(s, actions, h))
    decreases |actions|
  {
    if actions != [] {
      var s1, h1 := Step(s, actions[0]), Note(h, s, actions[0]);
      StepKeeps(s, actions[0], first);
      StepInOrder(s, actions[0], h);
      StepTold(s, actions[0], h, first);
      StepBound(s, actions[0], h, first);
      StepQuiet(s, actions[0], h, first);
      StepLate(s, actions[0], h);
      RunTold(s1, actions[1..], h1, first);
    }
  }

  lemma WholeRunTold(s: System, actions: seq<Action>)
    requires Initial(s)
    ensures TwoPhase.Kept(TwoPhase.Run(s, actions), FirstHosts(s))
    ensures Told(TwoPhase.Run(s, actions), Chronicle(s, actions, UNWRITTEN))
  {
    InitialKept(s, FirstHosts(s));
    InitialTold(s);
    RunTold(s, actions, UNWRITTEN, FirstHosts(s));
  }

  /** The contact number `k` is a rollback of node `n`, and nothing but rollbacks follows it. */
  predicate FinalRollback(contacts: seq<Contact>, k: nat, n: nat)
  {
    && k < |contacts| && contacts[k].ticket.kind.DoRollback? && contacts[k].ticket.node == n
    && forall l :: k <= l < |contacts| ==> contacts[l].ticket.kind.DoRollback?
  }

  lemma {:induction false} EndsInCalls(contacts: seq<Contact>, before: seq<(Kind, nat)>, count: nat, n: nat)
    requires Made(contacts) == before + Calls(DoRollback, count) && n < count
    ensures |contacts| >= count && FinalRollback(contacts, |contacts| - count + n, n)
  {
    var made := Made(contacts);
    forall l | |before| <= l < |contacts|
      ensures contacts[l].ticket.kind.DoRollback? && contacts[l].ticket.node == l - |before|
    {
      assert made[l] == Calls(DoRollback, count)[l - |before|];
    }
  }

  lemma {:induction false} GaveUpReaches(contacts: seq<Contact>, count: nat, nodes: nat, n: nat)
    requires GaveUp(Made(contacts), count, nodes, count) && n < count
    ensures |contacts| >= count && FinalRollback(contacts, |contacts| - count + n, n)
  {
    if count < nodes {
      EndsInCalls(contacts, Calls(DoStage, count + 1), count, n);
    } else {
      var commits :| 0 < commits <= nodes && Made(contacts)
                     == Calls(DoStage, nodes) + Calls(DoCommit, commits) + Calls(DoRollback, count);
      EndsInCalls(contacts, Calls(DoStage, nodes) + Calls(DoCommit, commits), count, n);
    }
  }

  /** What control has tried when it gives up: the stages up to the first failure, or all stages and
      the commits up to the first failure; and then a rollback of every node whose stage was
      confirmed, after everything else. It reports success after all stages and all commits. */
  lemma GivingUpRollsBack(s: System, actions: seq<Action>)
    requires Initial(s)
    ensures var p, h := TwoPhase.Run(s, actions).progress, Chronicle(s, actions, UNWRITTEN);
            && (p.Abandoned? ==>
                  && h.confirmed == Nodes(|h.confirmed|)
                  && GaveUp(Made(h.contacts), |h.confirmed|, |s.agents|, |h.confirmed|)
                  && forall n :: n in h.confirmed ==> exists k: nat :: FinalRollback(h.contacts, k, n))
            && (p.Succeeded? ==>
                  && h.confirmed == Nodes(|s.agents|)
                  && Made(h.contacts) == Calls(DoStage, |s.agents|) + Calls(DoCommit, |s.agents|))
  {
    WholeRunTold(s, actions);
    RunKeepsLength(s, actions);
    var p, h := TwoPhase.Run(s, actions).progress, Chronicle(s, actions, UNWRITTEN);
    if p.Abandoned? {
      forall n: nat | n in h.confirmed
        ensures exists k: nat :: FinalRollback(h.contacts, k, n)
      {
        GaveUpReaches(h.contacts, |h.confirmed|, |s.agents|, n);
      }
    }
  }

  lemma {:induction false} RunKeepsLength(s: System, actions: seq<Action>)
    requires |s.agents| == |s.orders|
    ensures |TwoPhase.Run(s, actions).agents| == |s.agents|
    decreases |actions|
  {
    if actions != [] {
      OthersUntouched(s, actions[0]);
      RunKeepsLength(Step(s, actions[0]), actions[1..]);
    }
  }

  /** At every moment of every run: a node is prepared exactly if a commit was carried out on it and
      no rollback command was; no node is prepared before every stage was confirmed; and a node that
      answered its stage with success still has its lease armed, unless its process died or the
      lease task has run. */
  lemma PreparedIff(s: System, actions: seq<Action>)
    requires Initial(s)
    ensures var s1, h := TwoPhase.Run(s, actions), Chronicle(s, actions, UNWRITTEN);
            && |s1.agents| == |s.agents|
            && (forall n :: n in h.confirmed ==> n in h.staged)
            && forall n :: 0 <= n < |s1.agents| ==>
                 && (PreparedAgent(s1.agents[n]) <==> n in h.committed && n !in h.undone)
                 && (PreparedAgent(s1.agents[n]) ==> |h.confirmed| == |s.agents|)
                 && (n in h.staged ==> s1.agents[n].armed || n in h.died || n in h.lapsed)
  {
    WholeRunTold(s, actions);
    RunKeepsLength(s, actions);
    var s1, h := TwoPhase.Run(s, actions), Chronicle(s, actions, UNWRITTEN);
    forall n | 0 <= n < |s1.agents|
      ensures PreparedAgent(s1.agents[n]) <==> n in h.committed && n !in h.undone
    {
      assert AgentTold(s1.agents[n], n, s1.operation, h);
    }
  }

  /** The rollback command that control sent to `n` was handled while nothing went wrong. */
  ghost predicate RolledBackQuietly(h: History, n: nat)
  {
    exists k :: 0 <= k < |h.contacts| && QuietRollback(h, h.contacts[k], n)
  }

  predicate QuietRollback(h: History, c: Contact, n: nat)
  {
    c.sent && c.ticket.kind.DoRollback? && c.ticket.node == n && c.ticket in h.quiet
  }

  /** A node is as it was if its rollback was handled while nothing went wrong, or if it was not
      committed and its failed stage, its lease task or its restart was left undisturbed. */
  lemma NodeIsClean(s: System, actions: seq<Action>, n: nat)
    requires Initial(s) && n < |s.agents|
    requires var h := Chronicle(s, actions, UNWRITTEN);
             RolledBackQuietly(h, n) || (n in h.calm && n !in h.committed)
    ensures var s1 := TwoPhase.Run(s, actions);
            && n < |s1.agents| && s1.agents[n].world.journal.None?
            && s1.agents[n].world.host == s.agents[n].world.host
  {
    WholeRunTold(s, actions);
    RunKeepsLength(s, actions);
    AllOrNothing(s, actions);
    var s1, h := TwoPhase.Run(s, actions), Chronicle(s, actions, UNWRITTEN);
    assert AgentTold(s1.agents[n], n, s1.operation, h);
  }

  /** No rollback that was tried is unsent or disturbed. */
  ghost predicate QuietSoFar(h: History)
  {
    forall k :: 0 <= k < |h.contacts| && h.contacts[k].ticket.kind.DoRollback? ==>
      h.contacts[k].sent && h.contacts[k].ticket in h.quiet
  }

  /** Nothing is left of an apply that control gave up, provided that every rollback it sent is
      handled while nothing goes wrong, and that on every other node that had begun its stage the
      failing stage, the lease task or a restart is left undisturbed. */
  lemma GivingUpLeavesNothing(s: System, actions: seq<Action>)
    requires Initial(s) && TwoPhase.Run(s, actions).progress.Abandoned?
    requires var h := Chronicle(s, actions, UNWRITTEN);
             && QuietSoFar(h)
             && (forall n :: 0 <= n < |TwoPhase.Run(s, actions).agents| ==>
                   n in h.confirmed || n in h.calm || !TwoPhase.Run(s, actions).agents[n].touched)
    ensures var s1 := TwoPhase.Run(s, actions);
            && |s1.agents| == |s.agents|
            && forall n :: 0 <= n < |s1.agents| ==>
                 s1.agents[n].world.journal.None? && s1.agents[n].world.host == s.agents[n].world.host
  {
    GivingUpRollsBack(s, actions);
    PreparedIff(s, actions);
    AllOrNothing(s, actions);
    WholeRunTold(s, actions);
    var s1, h := TwoPhase.Run(s, actions), Chronicle(s, actions, UNWRITTEN);
    forall n | 0 <= n < |s1.agents|
      ensures s1.agents[n].world.journal.None? && s1.agents[n].world.host == s.agents[n].world.host
    {
      if n in h.confirmed {
        var k: nat :| FinalRollback(h.contacts, k, n);
        assert QuietRollback(h, h.contacts[k], n);
        NodeIsClean(s, actions, n);
      } else if s1.agents[n].touched {
        NodesHold(|h.confirmed|, n);
        assert h.committed == {};
        NodeIsClean(s, actions, n);
      }
    }
  }

  /** The other way round: whenever a node is still prepared after control gave up, control did try
      to roll it back after its commit, and that command was not sent, or has not been handled, or
      was disturbed. */
  lemma StillPreparedMeansLostRollback(s: System, actions: seq<Action>, n: nat)
    requires Initial(s) && TwoPhase.Run(s, actions).progress.Abandoned?
    requires n < |TwoPhase.Run(s, actions).agents| && PreparedAgent(TwoPhase.Run(s, actions).agents[n])
    ensures var h := Chronicle(s, actions, UNWRITTEN);
            && n in h.committed && n !in h.undone
            && exists k: nat ::
                 FinalRollback(h.contacts, k, n) && !(h.contacts[k].sent && h.contacts[k].ticket in h.quiet)
  {
    GivingUpRollsBack(s, actions);
    PreparedIff(s, actions);
    var h := Chronicle(s, actions, UNWRITTEN);
    NodesHold(|h.confirmed|, n);
    var k: nat :| FinalRollback(h.contacts, k, n);
    if h.contacts[k].sent && h.contacts[k].ticket in h.quiet {
      assert QuietRollback(h, h.contacts[k], n);
      NodeIsClean(s, actions, n);
    }
  }

  // ----- Plans that are out of date

  /** A node that answered its stage with success had a plan for its original host. */
  ghost predicate StagedAreCurrent(s: System, h: History, first: seq<Host>)
    requires |s.orders| == |first|
  {
    forall n :: n in h.staged && n < |first| ==> !Stale(s.orders[n], first[n])
  }

  lemma {:induction false} NewlyStaged(s: System, action: Action, h: History, n: nat)
    requires |s.agents| == |s.orders| && n in Note(h, s, action).staged && n !in h.staged
    ensures action.Handles? && action.node == n < |s.agents| && s.agents[n].inbox != [] && s.agents[n].world.alive
    ensures var t := s.agents[n].inbox[0];
            t.kind.DoStage?
            && Answer(s.agents[n].world, Input(CallFor(s.operation, t, s.orders[n]), action.tape)).1.Fine?
  {
  }

  lemma {:induction false} StepCurrent(s: System, action: Action, h: History, first: seq<Host>)
    requires TwoPhase.Kept(s, first) && StagedAreCurrent(s, h, first)
    ensures Step(s, action).orders == s.orders && StagedAreCurrent(Step(s, action), Note(h, s, action), first)
  {
    OthersUntouched(s, action);
    forall n | n in Note(h, s, action).staged && n < |first|
      ensures !Stale(s.orders[n], first[n])
    {
      if n !in h.staged {
        NewlyStaged(s, action, h, n);
        assert AgentKept(s.agents[n], n, s.orders[n], first[n]);
        if Stale(s.orders[n], first[n]) {
          StaleStageIsRefused(s.agents[n].world, s.operation, s.orders[n], action.tape);
        }
      }
    }
  }

  lemma {:induction false} RunCurrent(s: System, actions: seq<Action>, h: History, first: seq<Host>)
    requires TwoPhase.Kept(s, first) && StagedAreCurrent(s, h, first)
    ensures TwoPhase.Run(s, actions).orders == s.orders
    ensures StagedAreCurrent(TwoPhase.Run(s, actions), Chronicle(s, actions, h), first)
    decreases |actions|
  {
    if actions != [] {
      StepKeeps(s, actions[0], first);
      StepCurrent(s, actions[0], h, first);
      RunCurrent(Step(s, actions[0]), actions[1..], Note(h, s, actions[0]), first);
    }
  }

  lemma {:induction false} StaleIsUnconfirmed(s: System, h: History, first: seq<Host>, n: nat)
    requires |s.agents| == |s.orders| == |first| && n < |first| && Told(s, h) && StagedAreCurrent(s, h, first)
    requires Stale(s.orders[n], first[n]) && h.confirmed == Nodes(|h.confirmed|)
    ensures |h.confirmed| != |s.agents|
  {
    NodesHold(|h.confirmed|, n);
  }

  lemma {:induction false} ConfirmedInOrder(s: System, h: History)
    requires InOrder(s, h)
    ensures h.confirmed == Nodes(|h.confirmed|)
  {
  }

  /** If the interfaces of a single node have changed since its plan was made, no node is ever prepared,
      control never reports success, and that node is left as it is. */
  lemma {:induction false} StalePlanStopsApply(s: System, actions: seq<Action>, n: nat)
    requires Initial(s) && n < |s.agents| && Stale(s.orders[n], s.agents[n].world.host)
    ensures var s1 := TwoPhase.Run(s, actions);
            && |s1.agents| == |s.agents| && !s1.progress.Succeeded?
            && (forall m :: 0 <= m < |s1.agents| ==> !PreparedAgent(s1.agents[m]))
            && s1.agents[n].world.journal.None? && s1.agents[n].world.host == s.agents[n].world.host
  {
    var first := FirstHosts(s);
    var s1, h := TwoPhase.Run(s, actions), Chronicle(s, actions, UNWRITTEN);
    WholeRunTold(s, actions);
    InitialKept(s, first);
    RunCurrent(s, actions, UNWRITTEN, first);
    ConfirmedInOrder(s1, h);
    StaleIsUnconfirmed(s1, h, first, n);
    PreparedIff(s, actions);
    AllOrNothing(s, actions);
    assert AgentKept(s1.agents[n], n, s1.orders[n], first[n]);
  }

  // ----- A run that gives up after a commit and leaves nothing

  lemma {:induction false} ChronicleConcat(s: System, a: seq<Action>, b: seq<Action>, h: History)
    requires |s.agents| == |s.orders|
    ensures |TwoPhase.Run(s, a).agents| == |TwoPhase.Run(s, a).orders|
    ensures TwoPhase.Run(s, a + b) == TwoPhase.Run(TwoPhase.Run(s, a), b)
    ensures Chronicle(s, a + b, h) == Chronicle(TwoPhase.Run(s, a), b, Chronicle(s, a, h))
    decreases |a|
  {
    if a == [] {
      assert a + b == b;
    } else {
      assert (a + b)[1..] == a[1..] + b;
      OthersUntouched(s, a[0]);
      ChronicleConcat(Step(s, a[0]), a[1..], b, Note(h, s, a[0]));
    }
  }

  const T2 := Ticket(2, 0, DoRollback)
  const LATE := [TimesOut] + ([Sends] + ([Handles(0, [])] + ([Hears(Reply(T2, true))] + [])))

  lemma FirstNote(s: System, a: Action, rest: seq<Action>, h: History)
    requires |s.agents| == |s.orders|
    ensures |Step(s, a).agents| == |Step(s, a).orders|
    ensures TwoPhase.Run(s, [a] + rest) == TwoPhase.Run(Step(s, a), rest)
    ensures Chronicle(s, [a] + rest, h) == Chronicle(Step(s, a), rest, Note(h, s, a))
  {
    OthersUntouched(s, a);
    assert ([a] + rest)[1..] == rest;
  }

  /** The rollback of one agent is handled and succeeds. */
  lemma {:induction false} RollbackHandled(w: World, order: Order, replies: set<Reply>)
    requires w.alive && Answer(w, Input(Recover, [])).1.Fine?
    ensures var s := LoneSystem(Lone(w, [T2], true, true), order, Compensating(0, 1), Some(T2), 3, replies);
            var s1 := Step(s, Handles(0, []));
            && s1.progress == s.progress && s1.waiting == s.waiting && |s1.agents| == |s1.orders| == 1
            && s1.replies == replies + {Reply(T2, true)}
  {
  }

  lemma {:induction false} RollbackNoted(w: World, order: Order, replies: set<Reply>, h: History)
    requires w.alive
    ensures var s := LoneSystem(Lone(w, [T2], true, true), order, Compensating(0, 1), Some(T2), 3, replies);
            var h1 := Note(h, s, Handles(0, []));
            h1.contacts == h.contacts && h1.confirmed == h.confirmed && h1.quiet == h.quiet + {T2}
  {
  }

  lemma NoRollbackYet(s: System, h: History)
    requires |s.agents| == 1 && InOrder(s, h) && s.progress == Committing(0) && s.waiting.Some?
    ensures h.confirmed == [0]
    ensures forall k :: 0 <= k < |h.contacts| ==> !h.contacts[k].ticket.kind.DoRollback?
  {
    assert Nodes(1) == [0];
    var made := Made(h.contacts);
    forall k | 0 <= k < |h.contacts|
      ensures !h.contacts[k].ticket.kind.DoRollback?
    {
      assert made[k].0 == h.contacts[k].ticket.kind;
    }
  }

  lemma LateSent(s: System, h: History, w: World, order: Order)
    requires s == LoneSystem(Lone(w, [], true, true), order, Committing(0), Some(T1), 2, {Reply(T1, true)})
    requires w.alive
    ensures |Step(s, TimesOut).agents| == |Step(s, TimesOut).orders|
    ensures Step(Step(s, TimesOut), Sends)
         == LoneSystem(Lone(w, [T2], true, true), order, Compensating(0, 1), Some(T2), 3, {Reply(T1, true)})
    ensures Note(Note(h, s, TimesOut), Step(s, TimesOut), Sends) == h.(contacts := h.contacts + [Contact(T2, true)])
  {
    assert [] + [T2] == [T2] && s.agents[0 := Lone(w, [T2], true, true)] == [Lone(w, [T2], true, true)];
  }

  lemma LateHandled(s: System, h: History, w: World, order: Order)
    requires s == LoneSystem(Lone(w, [T2], true, true), order, Compensating(0, 1), Some(T2), 3, {Reply(T1, true)})
    requires Safe(w) && w.alive
    ensures var rest := [Handles(0, [])] + ([Hears(Reply(T2, true))] + []);
            var s1, h1 := TwoPhase.Run(s, rest), Chronicle(s, rest, h);
            s1.progress.Abandoned? && h1.confirmed == h.confirmed && h1.contacts == h.contacts && T2 in h1.quiet
            && h.quiet <= h1.quiet
  {
    FirstNote(s, Handles(0, []), [Hears(Reply(T2, true))] + [], h);
    RecoverOutcome(w, []);
    RollbackHandled(w, order, {Reply(T1, true)});
    RollbackNoted(w, order, {Reply(T1, true)}, h);
    LateHeard(Step(s, Handles(0, [])), Note(h, s, Handles(0, [])));
  }

  lemma LateHeard(s: System, h: History)
    requires |s.agents| == |s.orders| && s.progress == Compensating(0, 1) && s.waiting == Some(T2)
    requires Reply(T2, true) in s.replies
    ensures var rest := [Hears(Reply(T2, true))] + [];
            TwoPhase.Run(s, rest).progress.Abandoned? && Chronicle(s, rest, h) == h
  {
    FirstNote(s, Hears(Reply(T2, true)), [], h);
  }

  lemma LateEnd(s: System, h: History, w: World, order: Order)
    requires s == LoneSystem(Lone(w, [], true, true), order, Committing(0), Some(T1), 2, {Reply(T1, true)})
    requires Safe(w) && w.alive && h.confirmed == [0]
    requires forall k :: 0 <= k < |h.contacts| ==> !h.contacts[k].ticket.kind.DoRollback?
    ensures var s1, h1 := TwoPhase.Run(s, LATE), Chronicle(s, LATE, h);
            s1.progress.Abandoned? && h1.confirmed == [0] && QuietSoFar(h1)
  {
    FirstNote(s, TimesOut, LATE[1..], h);
    FirstNote(Step(s, TimesOut), Sends, LATE[2..], Note(h, s, TimesOut));
    assert LATE[1..] == [Sends] + LATE[2..] && LATE == [TimesOut] + LATE[1..];
    assert LATE[2..] == [Handles(0, [])] + ([Hears(Reply(T2, true))] + []);
    LateSent(s, h, w, order);
    var s2, h2 := Step(Step(s, TimesOut), Sends), h.(contacts := h.contacts + [Contact(T2, true)]);
    LateHandled(s2, h2, w, order);
  }

  lemma CommittedIsSafe(host: Host, job: Job)
    requires Fits(job, host) && PoolsDiffer(job.borrows)
    ensures Safe(AfterCommit(host, job)) && AfterCommit(host, job).alive
  {
    StagedWorld(Fresh(host, job), "op", job);
    CommittedWorld(host, job);
    StepKeepsSafe(AfterStage(host, job), Input(Commit, []));
  }

  lemma LateRun(host: Host, job: Job)
    requires Fits(job, host) && PoolsDiffer(job.borrows)
    ensures var s := LoneSystem(Lone(Fresh(host, job), [], false, false), Order(job, host), Staging(0), None, 0, {});
            var s1, h := TwoPhase.Run(s, COMMITTED + LATE), Chronicle(s, COMMITTED + LATE, UNWRITTEN);
            Initial(s) && s1.progress.Abandoned? && h.confirmed == [0] && QuietSoFar(h)
  {
    var s := LoneSystem(Lone(Fresh(host, job), [], false, false), Order(job, host), Staging(0), None, 0, {});
    ExchangeUpToCommit(host, job);
    CommittedIsSafe(host, job);
    WholeRunTold(s, COMMITTED);
    ChronicleConcat(s, COMMITTED, LATE, UNWRITTEN);
    var s5, h5 := TwoPhase.Run(s, COMMITTED), Chronicle(s, COMMITTED, UNWRITTEN);
    NoRollbackYet(s5, h5);
    LateEnd(s5, h5, AfterCommit(host, job), Order(job, host));
  }

  /** The hypotheses under which giving up leaves nothing are met by a run, for every plan without
      repeated addresses: the commit is carried out, its reply is late, the rollback is sent and
      handled, and the host is as it was. */
  lemma LateReplyIsUndone(host: Host, job: Job)
    requires Fits(job, host) && PoolsDiffer(job.borrows)
    ensures var s := LoneSystem(Lone(Fresh(host, job), [], false, false), Order(job, host), Staging(0), None, 0, {});
            var s1, h := TwoPhase.Run(s, COMMITTED + LATE), Chronicle(s, COMMITTED + LATE, UNWRITTEN);
            && Initial(s) && s1.progress.Abandoned? && |s1.agents| == 1 && h.confirmed == [0] && QuietSoFar(h)
            && s1.agents[0].world.journal.None? && s1.agents[0].world.host == host
  {
    var s := LoneSystem(Lone(Fresh(host, job), [], false, false), Order(job, host), Staging(0), None, 0, {});
    LateRun(host, job);
    RunKeepsLength(s, COMMITTED + LATE);
    var h := Chronicle(s, COMMITTED + LATE, UNWRITTEN);
    assert h.confirmed[0] == 0;
    GivingUpLeavesNothing(s, COMMITTED + LATE);
  }
}
