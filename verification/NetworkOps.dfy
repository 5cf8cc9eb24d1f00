/** How the agent executes commands and writes its journal while commands fail and the process
    dies. What goes wrong is read from a tape: one event for each command attempt and for each
    change of the journal file. An exhausted tape means that nothing goes wrong any more. */
module NetworkOps {
  import opened Base
  import opened HostModel
  import opened NetworkPlan

  /** `Error` fails without effect, `LateError` has its effect and reports failure, `Crash` kills
      the process before the effect. */
  datatype Event = Go | Error | LateError | Crash

  datatype Verdict = Fine | Failed | Died

  datatype Env = Env(host: Host, tape: seq<Event>)

  datatype Phase = Applying | Staged | RollingBack | Prepared

  datatype Journal = Journal(operation: string, phase: Phase, undo: seq<Command>, completed: nat)

  /** A node at rest: its host, its durable journal file, and the events still to come. */
  datatype Node = Node(host: Host, journal: Option<Journal>, tape: seq<Event>)

  function Head(tape: seq<Event>): Event
  {
    if tape == [] then Go else tape[0]
  }

  function Tail(tape: seq<Event>): seq<Event>
  {
    if tape == [] then [] else tape[1..]
  }

  function After(c: Command, h: Host): Host
  {
    match Run(c, h) case Done(h') => h' case _ => h
  }

  /** One execution of a command. Rollback tolerates the failures that say `absent`. */
  function Try(c: Command, e: Env, tolerant: bool): (Env, Verdict)
  {
    match Head(e.tape)
    case Crash => (Env(e.host, Tail(e.tape)), Died)
    case Error => (Env(e.host, Tail(e.tape)), Failed)
    case LateError => (Env(After(c, e.host), Tail(e.tape)), Failed)
    case Go =>
      (Env(After(c, e.host), Tail(e.tape)),
       if Run(c, e.host).Done? || (tolerant && Run(c, e.host).Absent?) then Fine else Failed)
  }

  /** A rollback command is tried up to `left` times. */
  function Attempt(c: Command, e: Env, left: nat): (Env, Verdict)
    decreases left
  {
    if left == 0 then (e, Failed)
    else
      var (e1, v) := Try(c, e, true);
      if v.Failed? then Attempt(c, e1, left - 1) else (e1, v)
  }

  const ATTEMPTS: nat := 3

  /** Every command but the namespace deletions; a failure does not stop the pass. */
  function RestorePass(undo: seq<Command>, e: Env, ok: bool): (Env, Verdict)
  {
    if undo == [] then (e, if ok then Fine else Failed)
    else if undo[0].DeleteNamespace? then RestorePass(undo[1..], e, ok)
    else
      var (e1, v) := Attempt(undo[0], e, ATTEMPTS);
      if v.Died? then (e1, Died) else RestorePass(undo[1..], e1, ok && v.Fine?)
  }

  /** The namespace deletions, in order. */
  function CleanupPass(undo: seq<Command>, e: Env, ok: bool): (Env, Verdict)
  {
    if undo == [] then (e, if ok then Fine else Failed)
    else if !undo[0].DeleteNamespace? then CleanupPass(undo[1..], e, ok)
    else
      var (e1, v) := Attempt(undo[0], e, ATTEMPTS);
      if v.Died? then (e1, Died) else CleanupPass(undo[1..], e1, ok && v.Fine?)
  }

  /** Both passes: namespaces are deleted only if every restoration succeeded. */
  function Passes(undo: seq<Command>, e: Env): (Env, Verdict)
  {
    var (e1, v) := RestorePass(undo, e, true);
    if v.Fine? then CleanupPass(undo, e1, true) else (e1, v)
  }

  /** Replacing or removing the journal file is atomic: it happens or it does not. */
  function WriteJournal(n: Node, value: Option<Journal>): (Node, Verdict)
  {
    match Head(n.tape)
    case Go => (Node(n.host, value, Tail(n.tape)), Fine)
    case LateError => (Node(n.host, value, Tail(n.tape)), Failed)
    case Error => (n.(tape := Tail(n.tape)), Failed)
    case Crash => (n.(tape := Tail(n.tape)), Died)
  }

  function RollbackNode(n: Node, undo: seq<Command>): (Node, Verdict)
  {
    var (e, v) := Passes(undo, Env(n.host, n.tape));
    var n1 := Node(e.host, n.journal, e.tape);
    if v.Fine? then WriteJournal(n1, None) else (n1, v)
  }

  /** A command of the plan failed: the journal says so before the rollback starts. */
  function AbortNode(n: Node, j: Journal): (Node, Verdict)
  {
    var (n1, v) := WriteJournal(n, Some(j.(phase := RollingBack)));
    if !v.Fine? then (n1, v)
    else
      var (n2, u) := RollbackNode(n1, j.undo);
      (n2, if u.Died? then Died else Failed)
  }

  /** Executing the commands of a plan from number j.completed on. */
  function ApplyFrom(n: Node, j: Journal, commands: seq<Command>): (Node, Verdict)
    requires j.completed <= |commands|
    decreases |commands| - j.completed
  {
    if j.completed == |commands| then
      WriteJournal(n, Some(j.(phase := Staged)))
    else
      var (e, v) := Try(commands[j.completed], Env(n.host, n.tape), false);
      var n1 := Node(e.host, n.journal, e.tape);
      if v.Died? then (n1, Died)
      else if v.Failed? then AbortNode(n1, j)
      else
        var j1 := j.(completed := j.completed + 1);
        var (n2, w) := WriteJournal(n1, Some(j1));
        if !w.Fine? then (n2, w) else ApplyFrom(n2, j1, commands)
  }

  function ApplyNode(n: Node, operation: string, plan: Plan): (Node, Verdict)
  {
    if Visible(n.host) != plan.fingerprint then (n, Failed)
    else
      var j := Journal(operation, Applying, plan.undo, 0);
      var (n1, v) := WriteJournal(n, Some(j));
      if !v.Fine? then (n1, v) else ApplyFrom(n1, j, plan.commands)
  }

  function CommitNode(n: Node): (Node, Verdict)
  {
    if n.journal.None? || !n.journal.value.phase.Staged? then (n, Failed)
    else WriteJournal(n, Some(n.journal.value.(phase := Prepared)))
  }

  function RecoverNode(n: Node): (Node, Verdict)
  {
    if n.journal.None? then (n, Fine) else RollbackNode(n, n.journal.value.undo)
  }

  function StartNode(n: Node): (Node, Verdict)
  {
    if n.journal.Some? && n.journal.value.phase.Prepared? then (n, Fine) else RecoverNode(n)
  }

  /** What the lease task does when its time has come. */
  function LeaseNode(n: Node, operation: string): (Node, Verdict)
  {
    if n.journal.Some? && n.journal.value.operation == operation
       && (n.journal.value.phase.Applying? || n.journal.value.phase.Staged?)
    then RollbackNode(n, n.journal.value.undo)
    else (n, Fine)
  }
}
