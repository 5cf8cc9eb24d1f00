/** Control's two-phase apply over any number of nodes, each an agent with its own host, journal,
    command stream and lease task. Commands can fail, agents can crash and restart, streams can
    drop, replies can be late or lost. */
module TwoPhase {
  import opened Base
  import opened HostModel
  import opened NetworkPlan
  import opened NetworkOps
  import opened NetworkSafety
  import opened NetworkRuns
  import opened NetworkOutcome
  import opened NetworkLimits

  datatype Kind = DoStage | DoCommit | DoRollback

  /** A command in a stream; `number` is its fresh command id. */
  datatype Ticket = Ticket(number: nat, node: nat, kind: Kind)

  datatype Reply = Reply(ticket: Ticket, ok: bool)

  /** `touched`, `rolledBack` and `expired` are history: a stage was handled; a rollback command
      was carried out successfully; the lease task carried out its rollback successfully. */
  datatype Agent = Agent(world: World, inbox: seq<Ticket>, armed: bool,
                         touched: bool, rolledBack: bool, expired: bool)

  /** `count` of Compensating is the number of nodes whose stage had succeeded. */
  datatype Progress =
    | Staging(index: nat)
    | Committing(index: nat)
    | Compensating(index: nat, count: nat)
    | Succeeded
    | Abandoned

  /** The plan for a node: the job, and the host as its inventory described it when the plan was made. */
  datatype Order = Order(job: Job, planned: Host)

  datatype System = System(agents: seq<Agent>, orders: seq<Order>, operation: string,
                           progress: Progress, waiting: Option<Ticket>, next: nat, replies: set<Reply>)

  datatype Action =
    | Sends
    | Unreachable
    | Hears(reply: Reply)
    | TimesOut
    | Loses(reply: Reply)
    | Handles(node: nat, tape: seq<Event>)
    | LeaseFires(node: nat, tape: seq<Event>)
    | Crashes(node: nat)
    | Starts(node: nat, tape: seq<Event>)
    | Drops(node: nat)

  predicate Active(p: Progress)
  {
    !p.Succeeded? && !p.Abandoned?
  }

  /** The command that control sends next. */
  function Wanted(p: Progress, number: nat): Ticket
    requires Active(p)
  {
    match p
    case Staging(i) => Ticket(number, i, DoStage)
    case Committing(i) => Ticket(number, i, DoCommit)
    case Compensating(i, _) => Ticket(number, i, DoRollback)
  }

  function Compensate(count: nat): Progress
  {
    if count == 0 then Abandoned else Compensating(0, count)
  }

  /** Control's reaction to the outcome of the command it waits for. */
  function Advance(p: Progress, ok: bool, nodes: nat): Progress
  {
    match p
    case Staging(i) =>
      if !ok then Compensate(i) else if i + 1 < nodes then Staging(i + 1) else Committing(0)
    case Committing(i) =>
      if !ok then Compensate(nodes) else if i + 1 < nodes then Committing(i + 1) else Succeeded
    case Compensating(i, count) =>
      if i + 1 < count then Compensating(i + 1, count) else Abandoned
    case _ => p
  }

  function CallFor(operation: string, t: Ticket, order: Order): Call
  {
    match t.kind
    case DoStage => Stage(operation, Visible(order.planned), order.job)
    case DoCommit => Commit
    case DoRollback => Recover
  }

  function WithAgent(s: System, n: nat, a: Agent): System
    requires n < |s.agents|
  {
    s.(agents := s.agents[n := a])
  }

  /** A dead process has lost its stream and its lease task. */
  function Settle(a: Agent): Agent
  {
    if a.world.alive then a else a.(inbox := [], armed := false)
  }

  /** The agent after it has handled the command at the front of its stream, dead or alive. */
  function Handled(a: Agent, operation: string, order: Order, tape: seq<Event>): Agent
    requires a.inbox != []
  {
    var t := a.inbox[0];
    var input := Input(CallFor(operation, t, order), tape);
    var v := Answer(a.world, input).1;
    Agent(Perform(a.world, input), a.inbox[1..], a.armed || (t.kind.DoStage? && v.Fine?), a.touched || t.kind.DoStage?,
          a.rolledBack || (t.kind.DoRollback? && v.Fine?), a.expired)
  }

  function Handle(s: System, n: nat, tape: seq<Event>): System
    requires n < |s.agents| && n < |s.orders|
  {
    var a := s.agents[n];
    if a.inbox == [] || !a.world.alive then s
    else
      var input := Input(CallFor(s.operation, a.inbox[0], s.orders[n]), tape);
      var v := Answer(a.world, input).1;
      var s1 := WithAgent(s, n, Settle(Handled(a, s.operation, s.orders[n], tape)));
      if v.Died? then s1 else s1.(replies := s1.replies + {Reply(a.inbox[0], v.Fine?)})
  }

  function Expire(s: System, n: nat, tape: seq<Event>): System
    requires n < |s.agents|
  {
    var a := s.agents[n];
    if !a.armed || !a.world.alive then s
    else
      var input := Input(Lease(s.operation), tape);
      var uncommitted := a.world.journal.None? || !a.world.journal.value.phase.Prepared?;
      var w1 := Perform(a.world, input);
      WithAgent(s, n, Settle(a.(world := w1, armed := false,
                                expired := a.expired || (uncommitted && w1.journal.None?))))
  }

  function Step(s: System, action: Action): System
    requires |s.agents| == |s.orders|
  {
    match action
    case Sends =>
      if s.waiting.Some? || !Active(s.progress) then s
      else
        var t := Wanted(s.progress, s.next);
        if t.node >= |s.agents| then s
        else
          var a := s.agents[t.node];
          WithAgent(s, t.node, Settle(a.(inbox := a.inbox + [t]))).(waiting := Some(t), next := s.next + 1)
    case Unreachable =>
      if s.waiting.Some? then s else s.(progress := Advance(s.progress, false, |s.agents|))
    case Hears(reply) =>
      if reply !in s.replies then s
      else
        var s1 := s.(replies := s.replies - {reply});
        if s.waiting != Some(reply.ticket) then s1
        else s1.(waiting := None, progress := Advance(s.progress, reply.ok, |s.agents|))
    case TimesOut =>
      if s.waiting.None? then s else s.(waiting := None, progress := Advance(s.progress, false, |s.agents|))
    case Loses(reply) => s.(replies := s.replies - {reply})
    case Handles(n, tape) => if n < |s.agents| then Handle(s, n, tape) else s
    case LeaseFires(n, tape) => if n < |s.agents| then Expire(s, n, tape) else s
    case Crashes(n) =>
      if n < |s.agents| then WithAgent(s, n, Settle(s.agents[n].(world := s.agents[n].world.(alive := false)))) else s
    case Starts(n, tape) =>
      if n < |s.agents| && !s.agents[n].world.alive then
        WithAgent(s, n, Settle(s.agents[n].(world := Perform(s.agents[n].world, Input(Start, tape)))))
      else s
    case Drops(n) => if n < |s.agents| then WithAgent(s, n, s.agents[n].(inbox := [])) else s
  }

  function Run(s: System, actions: seq<Action>): System
    requires |s.agents| == |s.orders|
    decreases |actions|
  {
    if actions == [] then s else Run(Step(s, actions[0]), actions[1..])
  }

  /** The plan was made for a host that it fits, whatever has become of that host since; the names it
      uses for namespaces are still unused. */
  ghost predicate Usable(order: Order, host: Host)
  {
    && Fits(order.job, order.planned) && WellFormed(host)
    && forall i :: 0 <= i < |order.job.borrows| ==> order.job.borrows[i].ns !in host.namespaces
  }

  /** The interfaces in the root namespace have changed since the plan was made. */
  predicate Stale(order: Order, host: Host)
  {
    Visible(host) != Visible(order.planned)
  }

  lemma CurrentPlanFits(order: Order, host: Host)
    requires Usable(order, host) && !Stale(order, host)
    ensures Fits(order.job, host)
  {
    forall i | 0 <= i < |order.job.borrows|
      ensures FitsOne(order.job.borrows[i], order.job.ethtool, host)
    {
      var b := order.job.borrows[i];
      assert FitsOne(b, order.job.ethtool, order.planned);
      assert b.dev in Visible(order.planned) && Visible(order.planned)[b.dev] == order.planned.links[b.dev];
      assert b.dev in Visible(host) && Visible(host)[b.dev] == host.links[b.dev];
    }
  }

  /** Every node is idle without a journal, with a plan that may be out of date. */
  ghost predicate Initial(s: System)
  {
    && |s.agents| == |s.orders| > 0
    && s.progress == Staging(0) && s.waiting.None? && s.replies == {}
    && forall n :: 0 <= n < |s.agents| ==>
         var a := s.agents[n];
         && a == Agent(a.world, [], false, false, false, false)
         && a.world.alive && a.world.journal.None? && a.world.origin == a.world.host
         && Usable(s.orders[n], a.world.host)
  }

  ghost predicate PreparedAgent(a: Agent)
  {
    a.world.journal.Some? && a.world.journal.value.phase.Prepared?
  }

  // ----- What every agent keeps

  ghost predicate Orderly(inbox: seq<Ticket>, n: nat, touched: bool)
  {
    && (forall k :: 0 <= k < |inbox| ==> inbox[k].node == n)
    && (forall k :: 0 <= k < |inbox| && inbox[k].kind.DoStage? ==> k == 0 && !touched)
    && (forall k, l :: 0 <= k < l < |inbox| && inbox[k].kind.DoRollback? ==> inbox[l].kind.DoRollback?)
  }

  ghost predicate OnlyRollbacks(inbox: seq<Ticket>)
  {
    forall k :: 0 <= k < |inbox| ==> inbox[k].kind.DoRollback?
  }

  ghost predicate AgentKept(a: Agent, n: nat, order: Order, first: Host)
  {
    && Safe(a.world)
    && a.world.origin == first
    && Usable(order, first)
    && (Stale(order, first) ==> a.world.journal.None?)
    && Orderly(a.inbox, n, a.touched)
    && (!a.touched ==> a.world.host == first && a.world.journal.None?)
    && (a.armed ==> a.touched)
    && (a.rolledBack ==> a.world.journal.None? && OnlyRollbacks(a.inbox))
    && (a.expired ==> a.world.journal.None? && a.touched)
  }

  lemma SettleKeepsAgent(a: Agent, n: nat, order: Order, first: Host)
    requires AgentKept(a, n, order, first)
    ensures AgentKept(Settle(a), n, order, first)
  {
  }

  lemma OrderlyNext(inbox: seq<Ticket>, n: nat, touched: bool)
    requires inbox != [] && Orderly(inbox, n, touched)
    ensures Orderly(inbox[1..], n, touched || inbox[0].kind.DoStage?)
    ensures OnlyRollbacks(inbox) ==> OnlyRollbacks(inbox[1..])
    ensures inbox[0].kind.DoRollback? ==> OnlyRollbacks(inbox[1..])
    ensures inbox[0].kind.DoStage? ==> !touched
  {
  }

  /** The stage of an outdated plan is refused before anything is written. */
  lemma StaleStageIsRefused(w: World, operation: string, order: Order, tape: seq<Event>)
    requires Stale(order, w.host)
    ensures var i := Input(Stage(operation, Visible(order.planned), order.job), tape);
            !Begins(w, i.call) && Answer(w, i).1 != Fine
            && Perform(w, i).host == w.host && Perform(w, i).journal == w.journal
  {
  }

  lemma HandledKept(a: Agent, operation: string, n: nat, order: Order, tape: seq<Event>, first: Host)
    requires AgentKept(a, n, order, first) && a.inbox != [] && a.world.alive
    ensures AgentKept(Handled(a, operation, order, tape), n, order, first)
  {
    var t := a.inbox[0];
    var input := Input(CallFor(operation, t, order), tape);
    OrderlyNext(a.inbox, n, a.touched);
    if Stale(order, first) {
      StaleStageIsRefused(a.world, operation, order, tape);
    } else {
      CurrentPlanFits(order, first);
    }
    assert Clear(a.world, input);
    StepKeepsSafe(a.world, input);
    if t.kind.DoRollback? {
      RecoverForgets(a.world, tape);
    }
    if a.rolledBack || a.expired {
      NothingLeftToDo(a.world, input);
    }
  }

  lemma HandleKeepsAgent(s: System, n: nat, tape: seq<Event>, first: Host)
    requires n < |s.agents| == |s.orders| && AgentKept(s.agents[n], n, s.orders[n], first)
    ensures AgentKept(Handle(s, n, tape).agents[n], n, s.orders[n], first)
  {
    var a := s.agents[n];
    if a.inbox != [] && a.world.alive {
      HandledKept(a, s.operation, n, s.orders[n], tape, first);
      SettleKeepsAgent(Handled(a, s.operation, s.orders[n], tape), n, s.orders[n], first);
    }
  }

  lemma RecoverForgets(w: World, tape: seq<Event>)
    requires w.alive
    ensures Answer(w, Input(Recover, tape)).1.Fine? ==> Perform(w, Input(Recover, tape)).journal.None?
  {
    if w.journal.Some? {
      var (e, v) := Passes(w.journal.value.undo, Env(w.host, tape));
    }
  }

  /** Without a journal, only a stage can create one. */
  lemma NothingLeftToDo(w: World, i: Input)
    requires w.journal.None? && !i.call.Stage?
    ensures Perform(w, i).journal.None? && Perform(w, i).host == w.host
  {
  }

  lemma ExpireKeepsAgent(s: System, n: nat, tape: seq<Event>, first: Host)
    requires n < |s.agents| == |s.orders| && AgentKept(s.agents[n], n, s.orders[n], first)
    ensures AgentKept(Expire(s, n, tape).agents[n], n, s.orders[n], first)
  {
    var a := s.agents[n];
    var input := Input(Lease(s.operation), tape);
    StepKeepsSafe(a.world, input);
    if a.world.journal.None? {
      NothingLeftToDo(a.world, input);
    }
  }

  lemma StartKeepsAgent(s: System, n: nat, tape: seq<Event>, first: Host)
    requires n < |s.agents| == |s.orders| && AgentKept(s.agents[n], n, s.orders[n], first)
    ensures AgentKept(Step(s, Starts(n, tape)).agents[n], n, s.orders[n], first)
  {
    var input := Input(Start, tape);
    StepKeepsSafe(s.agents[n].world, input);
    if s.agents[n].world.journal.None? {
      NothingLeftToDo(s.agents[n].world, input);
    }
  }

  // ----- What the whole system keeps

  ghost predicate Forward(p: Progress)
  {
    p.Staging? || p.Committing? || p.Succeeded?
  }

  /** How many nodes have confirmed their commit. */
  function Confirmed(p: Progress, nodes: nat): nat
  {
    match p case Committing(i) => i case Succeeded => nodes case _ => 0
  }

  /** While nothing has failed, at most the awaited command is under way. */
  ghost predicate InStep(s: System)
  {
    && (s.progress.Staging? || s.progress.Committing? ==> s.progress.index < |s.agents|)
    && (forall n :: 0 <= n < |s.agents| ==>
          s.agents[n].inbox == [] || (s.waiting.Some? && s.agents[n].inbox == [s.waiting.value]))
    && (forall r :: r in s.replies ==>
          forall n :: 0 <= n < |s.agents| ==> r.ticket !in s.agents[n].inbox)
    && (s.waiting.Some? ==> Active(s.progress) && s.waiting.value == Wanted(s.progress, s.waiting.value.number))
    && (forall n :: 0 <= n < Confirmed(s.progress, |s.agents|) ==> PreparedAgent(s.agents[n]))
    && (forall r :: r in s.replies && r.ok && s.waiting == Some(r.ticket) && s.progress.Committing? ==>
          PreparedAgent(s.agents[s.progress.index]))
    && (s.progress.Staging? ==> forall n :: s.progress.index <= n < |s.agents| ==>
          (n == s.progress.index && s.waiting.Some?) || !s.agents[n].touched)
    && (forall n :: 0 <= n < |s.agents| ==> !s.agents[n].rolledBack)
  }

  ghost predicate Numbered(s: System)
  {
    && (s.waiting.Some? ==> s.waiting.value.number < s.next)
    && (forall r :: r in s.replies ==> r.ticket.number < s.next)
    && (forall n, k :: 0 <= n < |s.agents| && 0 <= k < |s.agents[n].inbox| ==> s.agents[n].inbox[k].number < s.next)
  }

  ghost predicate Kept(s: System, first: seq<Host>)
  {
    && |s.agents| == |s.orders| == |first| > 0
    && Numbered(s)
    && (forall n :: 0 <= n < |s.agents| ==> AgentKept(s.agents[n], n, s.orders[n], first[n]))
    && (Forward(s.progress) ==> InStep(s))
  }

  lemma InitialKept(s: System, first: seq<Host>)
    requires Initial(s) && |first| == |s.agents|
    requires forall n :: 0 <= n < |s.agents| ==> first[n] == s.agents[n].world.host
    ensures Kept(s, first)
  {
  }

  /** The agent that an action changes, if any, and the only one that differs afterwards. */
  predicate Targets(s: System, action: Action, n: nat)
  {
    match action
    case Sends => s.waiting.None? && Active(s.progress) && n == Wanted(s.progress, s.next).node
    case Handles(m, _) => n == m
    case LeaseFires(m, _) => n == m
    case Crashes(m) => n == m
    case Starts(m, _) => n == m
    case Drops(m) => n == m
    case _ => false
  }

  lemma OthersUntouched(s: System, action: Action)
    requires |s.agents| == |s.orders|
    ensures var s1 := Step(s, action);
            && |s1.agents| == |s.agents| && s1.orders == s.orders && s1.operation == s.operation
            && forall n :: 0 <= n < |s.agents| && !Targets(s, action, n) ==> s1.agents[n] == s.agents[n]
  {
  }

  lemma CrashKeepsAgent(a: Agent, n: nat, order: Order, first: Host)
    requires AgentKept(a, n, order, first)
    ensures AgentKept(Settle(a.(world := a.world.(alive := false))), n, order, first)
    ensures AgentKept(a.(inbox := []), n, order, first)
  {
  }

  lemma TargetKept(s: System, action: Action, n: nat, first: seq<Host>)
    requires Kept(s, first) && n < |s.agents| && Targets(s, action, n)
    ensures AgentKept(Step(s, action).agents[n], n, s.orders[n], first[n])
  {
    match action
    case Sends => SendKeepsAgent(s, first);
    case Handles(_, tape) => HandleKeepsAgent(s, n, tape, first[n]);
    case LeaseFires(_, tape) => ExpireKeepsAgent(s, n, tape, first[n]);
    case Starts(_, tape) => StartKeepsAgent(s, n, tape, first[n]);
    case Crashes(_) => CrashKeepsAgent(s.agents[n], n, s.orders[n], first[n]);
    case Drops(_) => CrashKeepsAgent(s.agents[n], n, s.orders[n], first[n]);
    case _ =>
  }

  lemma StepKeepsAgents(s: System, action: Action, first: seq<Host>)
    requires Kept(s, first)
    ensures var s1 := Step(s, action);
            && |s1.agents| == |s.agents| && s1.orders == s.orders
            && forall n :: 0 <= n < |s1.agents| ==> AgentKept(s1.agents[n], n, s1.orders[n], first[n])
  {
    OthersUntouched(s, action);
    forall n | 0 <= n < |s.agents|
      ensures AgentKept(Step(s, action).agents[n], n, s.orders[n], first[n])
    {
      if Targets(s, action, n) {
        TargetKept(s, action, n, first);
      }
    }
  }

  lemma {:induction false} SendKeepsAgent(s: System, first: seq<Host>)
    requires Kept(s, first) && s.waiting.None? && Active(s.progress)
    requires Wanted(s.progress, s.next).node < |s.agents|
    ensures var n := Wanted(s.progress, s.next).node;
            AgentKept(Step(s, Sends).agents[n], n, s.orders[n], first[n])
  {
    var t := Wanted(s.progress, s.next);
    var a := s.agents[t.node];
    assert AgentKept(a, t.node, s.orders[t.node], first[t.node]);
    var inbox := a.inbox + [t];
    if Forward(s.progress) {
      assert a.inbox == [];
    }
    assert Orderly(inbox, t.node, a.touched);
  }

  /** An agent's stream only loses commands, or is as before. */
  ghost predicate Shrinks(before: seq<Ticket>, after: seq<Ticket>)
  {
    forall t :: t in after ==> t in before
  }

  lemma HandleShape(s: System, n: nat, tape: seq<Event>)
    requires n < |s.agents| == |s.orders|
    ensures var s1 := Handle(s, n, tape);
            && s1 == s.(agents := s1.agents, replies := s1.replies) && |s1.agents| == |s.agents|
            && (forall m :: 0 <= m < |s.agents| ==> Shrinks(s.agents[m].inbox, s1.agents[m].inbox))
            && (forall r :: r in s1.replies ==>
                  r in s.replies || (s.agents[n].inbox != [] && r.ticket == s.agents[n].inbox[0]))
  {
  }

  lemma AloneShape(s: System, action: Action)
    requires |s.agents| == |s.orders|
    requires action.LeaseFires? || action.Crashes? || action.Starts? || action.Drops?
    ensures var s1 := Step(s, action);
            && s1 == s.(agents := s1.agents) && |s1.agents| == |s.agents|
            && (forall m :: 0 <= m < |s.agents| ==> Shrinks(s.agents[m].inbox, s1.agents[m].inbox))
  {
  }

  lemma ShapeKeepsNumbers(s: System, s1: System)
    requires Numbered(s) && s1.waiting == s.waiting && s1.next == s.next && |s1.agents| == |s.agents|
    requires forall m :: 0 <= m < |s.agents| ==> Shrinks(s.agents[m].inbox, s1.agents[m].inbox)
    requires forall r :: r in s1.replies ==> r.ticket.number < s.next
    ensures Numbered(s1)
  {
    forall m, k | 0 <= m < |s1.agents| && 0 <= k < |s1.agents[m].inbox|
      ensures s1.agents[m].inbox[k].number < s1.next
    {
      assert s1.agents[m].inbox[k] in s.agents[m].inbox;
    }
  }

  lemma StepKeepsNumbers(s: System, action: Action, first: seq<Host>)
    requires Kept(s, first)
    ensures Numbered(Step(s, action))
  {
    match action
    case Handles(n, tape) =>
      if n < |s.agents| {
        HandleShape(s, n, tape);
        ShapeKeepsNumbers(s, Handle(s, n, tape));
      }
    case LeaseFires(_, _) =>
      AloneShape(s, action);
      ShapeKeepsNumbers(s, Step(s, action));
    case Crashes(_) =>
      AloneShape(s, action);
      ShapeKeepsNumbers(s, Step(s, action));
    case Starts(_, _) =>
      AloneShape(s, action);
      ShapeKeepsNumbers(s, Step(s, action));
    case Drops(_) =>
      AloneShape(s, action);
      ShapeKeepsNumbers(s, Step(s, action));
    case Sends => SendKeepsNumbers(s);
    case _ =>
  }

  lemma SendKeepsNumbers(s: System)
    requires |s.agents| == |s.orders| && Numbered(s)
    ensures Numbered(Step(s, Sends))
  {
  }

  lemma SendKeepsInStep(s: System, first: seq<Host>)
    requires Kept(s, first) && Forward(s.progress)
    ensures InStep(Step(s, Sends))
  {
    if s.waiting.None? && Active(s.progress) {
      var t := Wanted(s.progress, s.next);
      assert s.agents[t.node].inbox == [] && s.agents[t.node].inbox + [t] == [t];
    }
  }

  /** The awaited command has succeeded: nothing is under way. */
  lemma AdvanceKeepsInStep(s: System, s1: System, t: Ticket)
    requires InStep(s) && Forward(s.progress) && Active(s.progress) && s.waiting == Some(t) && |s.agents| > 0
    requires forall n :: 0 <= n < |s.agents| ==> s.agents[n].inbox == []
    requires s.progress.Committing? ==> PreparedAgent(s.agents[s.progress.index])
    requires s1.agents == s.agents && s1.replies <= s.replies && s1.waiting.None?
    requires s1.progress == Advance(s.progress, true, |s.agents|)
    ensures InStep(s1)
  {
  }

  lemma HearKeepsInStep(s: System, reply: Reply, first: seq<Host>)
    requires Kept(s, first) && Forward(s.progress) && Forward(Step(s, Hears(reply)).progress)
    ensures InStep(Step(s, Hears(reply)))
  {
    if reply in s.replies && s.waiting == Some(reply.ticket) {
      forall n | 0 <= n < |s.agents|
        ensures s.agents[n].inbox == []
      {
        assert reply.ticket !in s.agents[n].inbox;
      }
      assert reply.ok;
      AdvanceKeepsInStep(s, Step(s, Hears(reply)), reply.ticket);
    }
  }

  /** The awaited command has been handled: its stream is empty again, and a reply may be there. */
  lemma HandledInStep(s: System, s1: System, n: nat, t: Ticket, ok: bool)
    requires InStep(s) && Forward(s.progress) && n < |s.agents| && s.waiting == Some(t) && Active(s.progress)
    requires s1 == s.(agents := s1.agents, replies := s1.replies) && |s1.agents| == |s.agents|
    requires forall m :: 0 <= m < |s.agents| && m != n ==> s1.agents[m] == s.agents[m]
    requires s1.agents[n].inbox == [] && !s1.agents[n].rolledBack
    requires forall m :: 0 <= m < |s.agents| && s.agents[m].inbox == [t] ==> m == n
    requires s1.replies == s.replies || s1.replies == s.replies + {Reply(t, ok)}
    requires PreparedAgent(s.agents[n]) ==> PreparedAgent(s1.agents[n])
    requires t.kind.DoCommit? && ok ==> PreparedAgent(s1.agents[n])
    requires n == t.node == s.progress.index && t == Wanted(s.progress, t.number)
    ensures InStep(s1)
  {
    forall m | 0 <= m < |s1.agents|
      ensures s1.agents[m].inbox == []
    {
    }
  }

  lemma {:induction false} HandleKeepsInStep(s: System, n: nat, tape: seq<Event>, first: seq<Host>)
    requires Kept(s, first) && Forward(s.progress) && n < |s.agents|
    ensures InStep(Handle(s, n, tape))
  {
    var a := s.agents[n];
    if a.inbox != [] && a.world.alive {
      assert AgentKept(a, n, s.orders[n], first[n]);
      var t := a.inbox[0];
      assert a.inbox == [t] && s.waiting == Some(t) && t.node == n && a.inbox[1..] == [];
      assert t == Wanted(s.progress, t.number) && n == s.progress.index;
      var input := Input(CallFor(s.operation, t, s.orders[n]), tape);
      CommitsPrepare(a.world, t, input);
      TicketsStayHome(s, t, first);
      HandledInStep(s, Handle(s, n, tape), n, t, Answer(a.world, input).1.Fine?);
    }
  }

  lemma CommitsPrepare(w: World, t: Ticket, i: Input)
    requires w.alive && (t.kind.DoCommit? <==> i.call.Commit?)
    ensures t.kind.DoCommit? && Answer(w, i).1.Fine? ==>
              Perform(w, i).journal.Some? && Perform(w, i).journal.value.phase.Prepared?
  {
  }

  lemma TicketsStayHome(s: System, t: Ticket, first: seq<Host>)
    requires Kept(s, first)
    ensures forall m :: 0 <= m < |s.agents| && s.agents[m].inbox == [t] ==> t.node == m
  {
    forall m | 0 <= m < |s.agents| && s.agents[m].inbox == [t]
      ensures t.node == m
    {
      assert AgentKept(s.agents[m], m, s.orders[m], first[m]);
      assert s.agents[m].inbox[0] == t;
    }
  }

  lemma {:induction false} AloneKeepsPrepared(s: System, action: Action)
    requires |s.agents| == |s.orders|
    requires action.LeaseFires? || action.Crashes? || action.Starts? || action.Drops?
    requires action.node < |s.agents| == |Step(s, action).agents|
    ensures PreparedAgent(s.agents[action.node]) ==> PreparedAgent(Step(s, action).agents[action.node])
  {
    var a := s.agents[action.node];
    if PreparedAgent(a) {
      match action
      case LeaseFires(_, tape) => PreparedSurvives(a.world, Input(Lease(s.operation), tape));
      case Starts(_, tape) => PreparedSurvives(a.world, Input(Start, tape));
      case _ =>
    }
  }

  /** What an agent does on its own: it may lose its stream, and control does not see it. */
  lemma {:induction false} AloneIsUnseen(s: System, action: Action)
    requires |s.agents| == |s.orders|
    requires action.LeaseFires? || action.Crashes? || action.Starts? || action.Drops?
    requires action.node < |s.agents| == |Step(s, action).agents|
    ensures var a, a1 := s.agents[action.node], Step(s, action).agents[action.node];
            && (a1.inbox == a.inbox || a1.inbox == [])
            && a1.touched == a.touched && a1.rolledBack == a.rolledBack
    ensures Step(s, action) == s.(agents := Step(s, action).agents)
  {
  }

  /** One agent may lose its stream, nothing else that matters to control. */
  lemma LossKeepsInStep(s: System, s1: System, n: nat)
    requires InStep(s) && s1 == s.(agents := s1.agents) && |s1.agents| == |s.agents| && n < |s.agents|
    requires forall m :: 0 <= m < |s.agents| && m != n ==> s1.agents[m] == s.agents[m]
    requires PreparedAgent(s.agents[n]) ==> PreparedAgent(s1.agents[n])
    requires s1.agents[n].inbox == s.agents[n].inbox || s1.agents[n].inbox == []
    requires s1.agents[n].touched == s.agents[n].touched && s1.agents[n].rolledBack == s.agents[n].rolledBack
    ensures InStep(s1)
  {
  }

  lemma AloneKeepsInStep(s: System, action: Action, first: seq<Host>)
    requires Kept(s, first) && Forward(s.progress)
    requires action.LeaseFires? || action.Crashes? || action.Starts? || action.Drops?
    ensures InStep(Step(s, action))
  {
    OthersUntouched(s, action);
    if action.node < |s.agents| {
      AloneKeepsPrepared(s, action);
      AloneIsUnseen(s, action);
      LossKeepsInStep(s, Step(s, action), action.node);
    }
  }

  lemma LossKeepsControlInStep(s: System, action: Action)
    requires InStep(s) && (action.Loses? || action.Unreachable? || action.TimesOut?)
    requires |s.agents| == |s.orders| && Forward(Step(s, action).progress)
    ensures InStep(Step(s, action))
  {
  }

  lemma StepKeepsInStep(s: System, action: Action, first: seq<Host>)
    requires Kept(s, first) && Forward(Step(s, action).progress)
    ensures InStep(Step(s, action))
  {
    ForwardBefore(s, action);
    match action
    case Sends => SendKeepsInStep(s, first);
    case Hears(reply) => HearKeepsInStep(s, reply, first);
    case Handles(n, tape) => if n < |s.agents| { HandleKeepsInStep(s, n, tape, first); }
    case Loses(_) => LossKeepsControlInStep(s, action);
    case Unreachable => LossKeepsControlInStep(s, action);
    case TimesOut => LossKeepsControlInStep(s, action);
    case _ => AloneKeepsInStep(s, action, first);
  }

  /** Control that goes forward has never given up. */
  lemma ForwardBefore(s: System, action: Action)
    requires |s.agents| == |s.orders| && Forward(Step(s, action).progress)
    ensures Forward(s.progress)
  {
  }

  lemma StepKeeps(s: System, action: Action, first: seq<Host>)
    requires Kept(s, first)
    ensures Kept(Step(s, action), first)
  {
    StepKeepsAgents(s, action, first);
    StepKeepsNumbers(s, action, first);
    if Forward(Step(s, action).progress) {
      StepKeepsInStep(s, action, first);
    }
  }

  lemma {:induction false} RunKeeps(s: System, actions: seq<Action>, first: seq<Host>)
    requires Kept(s, first)
    ensures Kept(Run(s, actions), first)
    decreases |actions|
  {
    if actions != [] {
      StepKeeps(s, actions[0], first);
      RunKeeps(Step(s, actions[0]), actions[1..], first);
    }
  }

  function FirstHosts(s: System): seq<Host>
  {
    seq(|s.agents|, n requires 0 <= n < |s.agents| => s.agents[n].world.host)
  }

  /** The state at any moment of every run. If control reports success, every node is prepared. A node
      without a journal has its original host, any other holds the journal that leads back to it; and
      a node whose rollback or lease task reported success, or that was never reached, has none. What
      control does before it gives up, and what that achieves, is in TwoPhaseHistory. */
  lemma AllOrNothing(s: System, actions: seq<Action>)
    requires Initial(s)
    ensures var s1 := Run(s, actions);
            && |s1.agents| == |s.agents|
            && (s1.progress.Succeeded? ==> forall n :: 0 <= n < |s1.agents| ==> PreparedAgent(s1.agents[n]))
            && forall n :: 0 <= n < |s1.agents| ==>
                 var a := s1.agents[n];
                 && (a.rolledBack || a.expired || !a.touched ==>
                       a.world.journal.None? && a.world.host == s.agents[n].world.host)
                 && (a.world.journal.None? ==> a.world.host == s.agents[n].world.host)
                 && (a.world.journal.Some? ==> RecoveredHost(a.world) == s.agents[n].world.host)
  {
    var first := FirstHosts(s);
    InitialKept(s, first);
    RunKeeps(s, actions, first);
    var s1 := Run(s, actions);
    forall n | 0 <= n < |s1.agents| && s1.agents[n].world.journal.Some?
      ensures RecoveredHost(s1.agents[n].world) == first[n]
    {
      var w := s1.agents[n].world;
      assert AgentKept(s1.agents[n], n, s1.orders[n], first[n]);
      RollbackKeepsSecured(w.job, w.origin, Node(w.host, w.journal, []), w.journal.value.undo);
    }
  }

  /** After control has given up, nothing can make a node prepared once it is rolled back or its
      lease has expired: all such nodes stay at their original hosts in every continuation. */
  lemma SettledForGood(s: System, before: seq<Action>, after: seq<Action>, n: nat)
    requires Initial(s) && n < |s.agents|
    requires n < |Run(s, before).agents|
    requires Run(s, before).agents[n].rolledBack || Run(s, before).agents[n].expired
    ensures |Run(s, before).agents| == |Run(s, before).orders| && n < |Run(Run(s, before), after).agents|
    ensures var a := Run(Run(s, before), after).agents[n];
            a.world.journal.None? && a.world.host == s.agents[n].world.host
  {
    var first := FirstHosts(s);
    InitialKept(s, first);
    RunKeeps(s, before, first);
    var s1 := Run(s, before);
    RunKeeps(s1, after, first);
    HistoryStays(s1, after, n);
    assert AgentKept(Run(s1, after).agents[n], n, s1.orders[n], first[n]);
  }

  lemma HistoryStep(s: System, action: Action, n: nat)
    requires |s.agents| == |s.orders| && n < |s.agents|
    ensures |Step(s, action).agents| == |s.agents|
    ensures var a, a1 := s.agents[n], Step(s, action).agents[n];
            (a.rolledBack ==> a1.rolledBack) && (a.expired ==> a1.expired)
  {
    OthersUntouched(s, action);
  }

  lemma {:induction false} HistoryStays(s: System, actions: seq<Action>, n: nat)
    requires |s.agents| == |s.orders| && n < |s.agents|
    ensures var s1 := Run(s, actions);
            && |s1.agents| == |s.agents| && s1.orders == s.orders
            && (s.agents[n].rolledBack ==> s1.agents[n].rolledBack)
            && (s.agents[n].expired ==> s1.agents[n].expired)
    decreases |actions|
  {
    if actions != [] {
      OthersUntouched(s, actions[0]);
      HistoryStep(s, actions[0], n);
      HistoryStays(Step(s, actions[0]), actions[1..], n);
    }
  }

  // ----- Both ends are reachable

  function Lone(w: World, inbox: seq<Ticket>, armed: bool, touched: bool): Agent
  {
    Agent(w, inbox, armed, touched, false, false)
  }

  function LoneSystem(a: Agent, order: Order, p: Progress, waiting: Option<Ticket>, next: nat,
                      replies: set<Reply>): System
  {
    System([a], [order], "op", p, waiting, next, replies)
  }

  function Fresh(host: Host, job: Job): World
  {
    World(host, None, true, host, job)
  }

  function AfterStage(host: Host, job: Job): World
  {
    Perform(Fresh(host, job), Input(Stage("op", Visible(host), job), []))
  }

  function AfterCommit(host: Host, job: Job): World
  {
    Perform(AfterStage(host, job), Input(Commit, []))
  }

  const T0 := Ticket(0, 0, DoStage)
  const T1 := Ticket(1, 0, DoCommit)

  /** One agent handles a stage that succeeds. */
  lemma {:induction false} StageIsHandled(w: World, order: Order)
    requires w.alive && Answer(w, Input(Stage("op", Visible(order.planned), order.job), [])).1.Fine?
    ensures Step(LoneSystem(Lone(w, [T0], false, false), order, Staging(0), Some(T0), 1, {}), Handles(0, []))
         == LoneSystem(Lone(Perform(w, Input(Stage("op", Visible(order.planned), order.job), [])), [], true, true),
                       order, Staging(0), Some(T0), 1, {Reply(T0, true)})
  {
    var i := Input(Stage("op", Visible(order.planned), order.job), []);
    var a, b := Lone(w, [T0], false, false), Lone(Perform(w, i), [], true, true);
    assert [T0][1..] == [] && [a][0 := b] == [b];
  }

  lemma {:induction false} StageHandled(host: Host, job: Job)
    requires Fits(job, host) && PoolsDiffer(job.borrows)
    ensures Step(LoneSystem(Lone(Fresh(host, job), [T0], false, false), Order(job, host), Staging(0), Some(T0), 1, {}),
                 Handles(0, []))
         == LoneSystem(Lone(AfterStage(host, job), [], true, true), Order(job, host), Staging(0), Some(T0), 1,
                        {Reply(T0, true)})
  {
    UndisturbedStageIff(job, host, None, "op");
    StageIsHandled(Fresh(host, job), Order(job, host));
  }

  lemma CommittedWorld(host: Host, job: Job)
    requires Fits(job, host) && PoolsDiffer(job.borrows)
    ensures var w := AfterCommit(host, job);
            w.alive && w.journal.Some? && w.journal.value.phase.Prepared? && AllConfigured(job, host, w.host)
    ensures AfterStage(host, job).alive && Answer(AfterStage(host, job), Input(Commit, [])).1.Fine?
  {
    StagedWorld(Fresh(host, job), "op", job);
  }

  /** One agent handles a commit that succeeds. */
  lemma CommitHandled(w: World, order: Order)
    requires w.alive && Answer(w, Input(Commit, [])).1.Fine?
    ensures Step(LoneSystem(Lone(w, [T1], true, true), order, Committing(0), Some(T1), 2, {}), Handles(0, []))
         == LoneSystem(Lone(Perform(w, Input(Commit, [])), [], true, true), order, Committing(0), Some(T1), 2,
                       {Reply(T1, true)})
  {
    var a, b := Lone(w, [T1], true, true), Lone(Perform(w, Input(Commit, [])), [], true, true);
    assert [T1][1..] == [] && [a][0 := b] == [b];
  }

  lemma Sent(a: Agent, order: Order, p: Progress, next: nat)
    requires Active(p) && Wanted(p, next).node == 0 && a.inbox == [] && a.world.alive
    ensures var t := Wanted(p, next);
            Step(LoneSystem(a, order, p, None, next, {}), Sends)
            == LoneSystem(a.(inbox := [t]), order, p, Some(t), next + 1, {})
  {
    var t := Wanted(p, next);
    assert [] + [t] == [t] && [a][0 := a.(inbox := [t])] == [a.(inbox := [t])];
  }

  /** The undisturbed exchange up to the point where the node has carried out the commit. */
  lemma {:induction false} ExchangeUpToCommit(host: Host, job: Job)
    requires Fits(job, host) && PoolsDiffer(job.borrows)
    ensures Run(LoneSystem(Lone(Fresh(host, job), [], false, false), Order(job, host), Staging(0), None, 0, {}),
                [Sends, Handles(0, []), Hears(Reply(T0, true)), Sends, Handles(0, [])])
         == LoneSystem(Lone(AfterCommit(host, job), [], true, true), Order(job, host),
                       Committing(0), Some(T1), 2, {Reply(T1, true)})
  {
    StagedWorld(Fresh(host, job), "op", job);
    var staged := AfterStage(host, job);
    assert staged.alive;
    var s0 := LoneSystem(Lone(Fresh(host, job), [], false, false), Order(job, host), Staging(0), None, 0, {});
    Sent(s0.agents[0], Order(job, host), Staging(0), 0);
    var s1 := Step(s0, Sends);
    StageHandled(host, job);
    var s2 := Step(s1, Handles(0, []));
    var s3 := LoneSystem(Lone(staged, [], true, true), Order(job, host), Committing(0), None, 1, {});
    assert {Reply(T0, true)} - {Reply(T0, true)} == {};
    assert Step(s2, Hears(Reply(T0, true))) == s3;
    Sent(s3.agents[0], Order(job, host), Committing(0), 1);
    var s4 := Step(s3, Sends);
    CommittedWorld(host, job);
    CommitHandled(staged, Order(job, host));
    RunOfFive(s0, Sends, Handles(0, []), Hears(Reply(T0, true)), Sends, Handles(0, []));
  }

  lemma RunOfFive(s: System, a: Action, b: Action, c: Action, d: Action, e: Action)
    requires |s.agents| == |s.orders|
    ensures |Step(s, a).agents| == |Step(s, a).orders|
    ensures |Step(Step(s, a), b).agents| == |Step(Step(s, a), b).orders|
    ensures |Step(Step(Step(s, a), b), c).agents| == |Step(Step(Step(s, a), b), c).orders|
    ensures |Step(Step(Step(Step(s, a), b), c), d).agents| == |Step(Step(Step(Step(s, a), b), c), d).orders|
    ensures Run(s, [a, b, c, d, e]) == Step(Step(Step(Step(Step(s, a), b), c), d), e)
  {
    assert [a, b, c, d, e] == [a] + ([b] + ([c] + ([d] + ([e] + []))));
    var s1 := Step(s, a);
    FirstAction(s, a, [b] + ([c] + ([d] + ([e] + []))));
    var s2 := Step(s1, b);
    FirstAction(s1, b, [c] + ([d] + ([e] + [])));
    var s3 := Step(s2, c);
    FirstAction(s2, c, [d] + ([e] + []));
    FirstAction(s3, d, [e] + []);
    FirstAction(Step(s3, d), e, []);
  }

  lemma FirstAction(s: System, a: Action, rest: seq<Action>)
    requires |s.agents| == |s.orders|
    ensures |Step(s, a).agents| == |Step(s, a).orders| && Run(s, [a] + rest) == Run(Step(s, a), rest)
  {
    OthersUntouched(s, a);
    assert ([a] + rest)[1..] == rest;
  }

  lemma {:induction false} RunConcat(s: System, a: seq<Action>, b: seq<Action>)
    requires |s.agents| == |s.orders|
    ensures |Run(s, a).agents| == |Run(s, a).orders| && Run(s, a + b) == Run(Run(s, a), b)
    decreases |a|
  {
    if a == [] {
      assert a + b == b;
    } else {
      assert (a + b)[1..] == a[1..] + b;
      OthersUntouched(s, a[0]);
      RunConcat(Step(s, a[0]), a[1..], b);
    }
  }

  const COMMITTED := [Sends, Handles(0, []), Hears(Reply(T0, true)), Sends, Handles(0, [])]

  /** The reply to the commit is heard, or it is late and the node cannot be reached any more. */
  lemma LastActions(a: Agent, order: Order)
    requires a.inbox == []
    ensures var s := LoneSystem(a, order, Committing(0), Some(T1), 2, {Reply(T1, true)});
            var good, bad := Run(s, [Hears(Reply(T1, true))]), Run(s, [TimesOut, Unreachable]);
            && good.progress.Succeeded? && bad.progress.Abandoned? && good.agents == [a] && bad.agents == [a]
  {
    var s := LoneSystem(a, order, Committing(0), Some(T1), 2, {Reply(T1, true)});
    assert [Hears(Reply(T1, true))] + [] == [Hears(Reply(T1, true))];
    assert [TimesOut] + ([Unreachable] + []) == [TimesOut, Unreachable];
    FirstAction(s, Hears(Reply(T1, true)), []);
    FirstAction(s, TimesOut, [Unreachable] + []);
    FirstAction(Step(s, TimesOut), Unreachable, []);
  }

  /** For every plan without repeated addresses, both ends are reachable. The reply to the commit is
      heard: success. The reply is late and the rollback command undeliverable: control gives up
      while the node stays prepared and configured. */
  lemma {:induction false} SuccessAndLostRollback(host: Host, job: Job)
    requires Fits(job, host) && PoolsDiffer(job.borrows)
    ensures var s := LoneSystem(Lone(Fresh(host, job), [], false, false), Order(job, host), Staging(0), None, 0, {});
            var good, bad := Run(s, COMMITTED + [Hears(Reply(T1, true))]), Run(s, COMMITTED + [TimesOut, Unreachable]);
            && Initial(s) && good.progress.Succeeded? && bad.progress.Abandoned?
            && good.agents == bad.agents && |bad.agents| == 1 && PreparedAgent(bad.agents[0])
            && AllConfigured(job, host, bad.agents[0].world.host)
  {
    var s := LoneSystem(Lone(Fresh(host, job), [], false, false), Order(job, host), Staging(0), None, 0, {});
    ExchangeUpToCommit(host, job);
    CommittedWorld(host, job);
    RunConcat(s, COMMITTED, [Hears(Reply(T1, true))]);
    RunConcat(s, COMMITTED, [TimesOut, Unreachable]);
    LastActions(Lone(AfterCommit(host, job), [], true, true), Order(job, host));
    StartsIdle(host, job);
  }

  lemma {:induction false} StartsIdle(host: Host, job: Job)
    requires Fits(job, host)
    ensures Initial(LoneSystem(Lone(Fresh(host, job), [], false, false), Order(job, host), Staging(0), None, 0, {}))
  {
    forall i | 0 <= i < |job.borrows|
      ensures job.borrows[i].ns !in host.namespaces
    {
      assert FitsOne(job.borrows[i], job.ethtool, host);
    }
  }
}
