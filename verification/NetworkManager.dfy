/** The agent's network manager. The journal file is its only durable state; the host and the
    tape of events are the environment it works on. */
module NetworkManager {
  import opened Base
  import opened HostModel
  import opened NetworkPlan
  import opened NetworkOps

  class Manager {
    var host: Host
    var journal: Option<Journal>
    var tape: seq<Event>

    constructor (host: Host, journal: Option<Journal>, tape: seq<Event>)
      ensures State() == Node(host, journal, tape)
    {
      this.host, this.journal, this.tape := host, journal, tape;
    }

    ghost function State(): Node
      reads this
    {
      Node(host, journal, tape)
    }

    method Execute(c: Command, tolerant: bool) returns (v: Verdict)
      modifies this`host, this`tape
      ensures (Env(host, tape), v) == Try(c, old(Env(host, tape)), tolerant)
    {
      var event := Head(tape);
      tape := Tail(tape);
      match event {
        case Crash => v := Died;
        case Error => v := Failed;
        case LateError =>
          host := After(c, host);
          v := Failed;
        case Go =>
          var outcome := Run(c, host);
          host := After(c, host);
          v := if outcome.Done? || (tolerant && outcome.Absent?) then Fine else Failed;
      }
    }

    method Write(value: Option<Journal>) returns (v: Verdict)
      modifies this`journal, this`tape
      ensures (State(), v) == WriteJournal(old(State()), value)
    {
      var event := Head(tape);
      tape := Tail(tape);
      if event == Go || event == LateError {
        journal := value;
      }
      v := if event == Go then Fine else if event == Crash then Died else Failed;
    }

    method Retry(c: Command) returns (v: Verdict)
      modifies this`host, this`tape
      ensures (Env(host, tape), v) == Attempt(c, old(Env(host, tape)), ATTEMPTS)
    {
      v := Failed;
      var left: nat := ATTEMPTS;
      while left > 0
        invariant left <= ATTEMPTS
        invariant v.Failed?
        invariant Attempt(c, Env(host, tape), left) == Attempt(c, old(Env(host, tape)), ATTEMPTS)
      {
        v := Execute(c, true);
        if !v.Failed? {
          return;
        }
        left := left - 1;
      }
    }

    /** Restores every borrowed interface first and deletes namespaces only if all of that
        succeeded; forgets the journal only if everything did. */
    method Rollback(undo: seq<Command>) returns (v: Verdict)
      modifies this
      ensures (State(), v) == RollbackNode(old(State()), undo)
    {
      var failures := 0;
      var deferred: seq<Command> := [];
      ghost var start := Env(host, tape);
      assert undo[0..] == undo && deferred + undo == undo;
      for i := 0 to |undo|
        invariant journal == old(journal)
        invariant RestorePass(undo[i..], Env(host, tape), failures == 0) == RestorePass(undo, start, true)
        invariant failures >= 0
        invariant forall e: Env, ok :: CleanupPass(deferred + undo[i..], e, ok) == CleanupPass(undo, e, ok)
        invariant forall k :: 0 <= k < |deferred| ==> deferred[k].DeleteNamespace?
      {
        assert undo[i..][0] == undo[i] && undo[i..][1..] == undo[i + 1..];
        if undo[i].DeleteNamespace? {
          assert (deferred + [undo[i]]) + undo[i + 1..] == deferred + undo[i..];
          deferred := deferred + [undo[i]];
        } else {
          forall e: Env, ok
            ensures CleanupPass(deferred + undo[i + 1..], e, ok) == CleanupPass(deferred + undo[i..], e, ok)
          {
            CleanupSkips(deferred, undo[i..], e, ok);
          }
          v := Retry(undo[i]);
          if v.Died? {
            return;
          }
          if !v.Fine? {
            failures := failures + 1;
          }
        }
      }
      if failures == 0 {
        ghost var restored := Env(host, tape);
        assert deferred + undo[|undo|..] == deferred;
        for i := 0 to |deferred|
          invariant journal == old(journal)
          invariant CleanupPass(deferred[i..], Env(host, tape), failures == 0) == CleanupPass(undo, restored, true)
          invariant failures >= 0
        {
          assert deferred[i..][0] == deferred[i] && deferred[i..][1..] == deferred[i + 1..];
          v := Retry(deferred[i]);
          if v.Died? {
            return;
          }
          if !v.Fine? {
            failures := failures + 1;
          }
        }
      }
      if failures == 0 {
        v := Write(None);
      } else {
        v := Failed;
      }
    }

    method Apply(operation: string, plan: Plan) returns (v: Verdict)
      modifies this
      ensures (State(), v) == ApplyNode(old(State()), operation, plan)
    {
      if Visible(host) != plan.fingerprint {
        return Failed;
      }
      var j := Journal(operation, Applying, plan.undo, 0);
      v := Write(Some(j));
      if !v.Fine? {
        return;
      }
      ghost var start := State();
      while j.completed < |plan.commands|
        invariant j.completed <= |plan.commands| && j.undo == plan.undo
        invariant ApplyFrom(State(), j, plan.commands)
               == ApplyFrom(start, Journal(operation, Applying, plan.undo, 0), plan.commands)
      {
        v := Execute(plan.commands[j.completed], false);
        if v.Died? {
          return;
        }
        if v.Failed? {
          v := Write(Some(j.(phase := RollingBack)));
          if v.Fine? {
            v := Rollback(j.undo);
            v := if v.Died? then Died else Failed;
          }
          return;
        }
        j := j.(completed := j.completed + 1);
        v := Write(Some(j));
        if !v.Fine? {
          return;
        }
      }
      v := Write(Some(j.(phase := Staged)));
    }

    method Commit() returns (v: Verdict)
      modifies this
      ensures (State(), v) == CommitNode(old(State()))
    {
      if journal.None? || !journal.value.phase.Staged? {
        return Failed;
      }
      v := Write(Some(journal.value.(phase := Prepared)));
    }

    method Recover() returns (v: Verdict)
      modifies this
      ensures (State(), v) == RecoverNode(old(State()))
    {
      v := Fine;
      if journal.Some? {
        v := Rollback(journal.value.undo);
      }
    }

    method RecoverOnStartup() returns (v: Verdict)
      modifies this
      ensures (State(), v) == StartNode(old(State()))
    {
      v := Fine;
      if journal.Some? {
        if journal.value.phase.Prepared? {
          return;
        }
        v := Rollback(journal.value.undo);
      }
    }

    method EnforceLease(operation: string) returns (v: Verdict)
      modifies this
      ensures (State(), v) == LeaseNode(old(State()), operation)
    {
      v := Fine;
      if journal.Some? && journal.value.operation == operation
         && (journal.value.phase.Applying? || journal.value.phase.Staged?)
      {
        v := Rollback(journal.value.undo);
      }
    }
  }

  lemma {:induction false} CleanupSkips(deferred: seq<Command>, rest: seq<Command>, e: Env, ok: bool)
    requires rest != [] && !rest[0].DeleteNamespace?
    requires forall k :: 0 <= k < |deferred| ==> deferred[k].DeleteNamespace?
    ensures CleanupPass(deferred + rest[1..], e, ok) == CleanupPass(deferred + rest, e, ok)
  {
    if deferred == [] {
      assert [] + rest == rest && [] + rest[1..] == rest[1..];
    } else {
      assert (deferred + rest)[1..] == deferred[1..] + rest;
      assert (deferred + rest[1..])[1..] == deferred[1..] + rest[1..];
      var (e1, v) := Attempt(deferred[0], e, ATTEMPTS);
      CleanupSkips(deferred[1..], rest, e1, ok && v.Fine?);
    }
  }
}
