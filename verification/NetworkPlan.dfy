/** Planning on one node: which interfaces are borrowed, the commands that prepare them and the
    commands that undo the preparation. */
module NetworkPlan {
  import opened Base
  import opened HostModel

  datatype Interface = Interface(name: string, kind: Option<string>, mtu: Option<nat>, master: Option<string>,
                                 addresses: seq<Address>, linkUp: bool, offloads: map<Feature, bool>)

  /** `fingerprint` stands for the digest of the inventory: the links it describes. */
  datatype Inventory = Inventory(interfaces: seq<Interface>, protectedNames: seq<string>, arping: bool, ethtool: bool,
                                 fingerprint: map<string, Link>)

  /** `cidr` is the parsed start address and prefix, or None when the text does not parse. */
  datatype Endpoint = Endpoint(node: string, interfaceName: string, cidr: Option<Address>, count: nat)

  datatype Draft = Draft(operatorManaged: bool, allowVirtual: bool, client: Endpoint, server: Endpoint, mtu: nat)

  datatype EndpointPlan = EndpointPlan(role: string, ns: string, interfaceName: string, addresses: seq<Address>)

  datatype Plan = Plan(fingerprint: map<string, Link>, endpoints: seq<EndpointPlan>,
                       commands: seq<Command>, undo: seq<Command>)

  datatype PlanError =
    UnsafeIdentifier | InterfaceNotFound | ManagementInterface | InvalidCidr
    | MissingAddresses | AlreadyAddressed | Enslaved | VirtualInterface

  /** An interface that a plan takes into a namespace, with its state before that. */
  datatype Borrow = Borrow(dev: string, ns: string, pool: seq<Address>, saved: Interface)

  /** Everything the two command lists of a node depend on. */
  datatype Job = Job(borrows: seq<Borrow>, mtu: nat, arping: bool, ethtool: bool)

  datatype Decision = Skip | Use(entry: EndpointPlan) | Take(entry: EndpointPlan, borrow: Borrow)
                      | Reject(error: PlanError)

  datatype Result<+T> = Accepted(value: T) | Refusal(error: PlanError)

  const DISABLE_ORDER := [Gro, Gso, Tso, Lro, Rx, Tx]
  const RESTORE_ORDER := [Tx, Rx, Tso, Gso, Gro, Lro]
  const VIRTUAL_KINDS := ["veth", "vxlan", "bridge", "macvlan", "macvtap"]
  const ADDRESS_SPACE: nat := 0x1_0000_0000

  predicate SafeChar(c: char)
  {
    'a' <= c <= 'z' || 'A' <= c <= 'Z' || '0' <= c <= '9' || c == '-' || c == '_' || c == '.'
  }

  predicate SafeIdentifier(s: string)
  {
    0 < |s| <= 64 && forall i :: 0 <= i < |s| ==> SafeChar(s[i])
  }

  function Short(s: string): string
  {
    if |s| < 8 then s else s[..8]
  }

  function NamespaceName(revision: string, role: string): string
  {
    "pt-" + Short(revision) + "-" + role
  }

  function FindInterface(list: seq<Interface>, name: string): (r: Option<Interface>)
    ensures r.Some? ==> r.value in list && r.value.name == name
    ensures r.None? ==> forall i :: 0 <= i < |list| ==> list[i].name != name
  {
    if list == [] then None
    else if list[0].name == name then Some(list[0])
    else FindInterface(list[1..], name)
  }

  /** Consecutive addresses; the addition is modulo 2^32, so a pool that runs past the last address goes on at 0. */
  function ExpandPool(start: Address, count: nat): seq<Address>
  {
    seq(count, n => Address((start.ip + n) % ADDRESS_SPACE, start.prefix))
  }

  predicate HasIp(list: seq<Address>, ip: nat)
  {
    exists i :: 0 <= i < |list| && list[i].ip == ip
  }

  /** What planning does with one endpoint, in the order in which the checks are made. */
  function Decide(node: string, revision: string, role: string, e: Endpoint, draft: Draft, inv: Inventory): Decision
  {
    var current := FindInterface(inv.interfaces, e.interfaceName);
    if e.node != node then Skip
    else if !SafeIdentifier(e.interfaceName) then Reject(UnsafeIdentifier)
    else if current.None? then Reject(InterfaceNotFound)
    else if e.interfaceName in inv.protectedNames then Reject(ManagementInterface)
    else if e.cidr.None? then Reject(InvalidCidr)
    else
      var pool := ExpandPool(e.cidr.value, e.count);
      if draft.operatorManaged then
        if exists i :: 0 <= i < |pool| && !HasIp(current.value.addresses, pool[i].ip) then Reject(MissingAddresses)
        else Use(EndpointPlan(role, "", e.interfaceName, pool))
      else if current.value.addresses != [] then Reject(AlreadyAddressed)
      else if current.value.master.Some? then Reject(Enslaved)
      else if !draft.allowVirtual && current.value.kind.Some? && current.value.kind.value in VIRTUAL_KINDS then
        Reject(VirtualInterface)
      else
        var ns := NamespaceName(revision, role);
        if !SafeIdentifier(ns) then Reject(UnsafeIdentifier)
        else Take(EndpointPlan(role, ns, e.interfaceName, pool), Borrow(e.interfaceName, ns, pool, current.value))
  }

  function Probes(dev: string, pool: seq<Address>): seq<Command>
  {
    seq(|pool|, i requires 0 <= i < |pool| => ProbeAddress(dev, pool[i]))
  }

  function Additions(ns: string, dev: string, pool: seq<Address>): seq<Command>
  {
    seq(|pool|, i requires 0 <= i < |pool| => AddAddress(ns, dev, pool[i]))
  }

  /** The last address of the pool first, so that no primary goes before its secondaries. */
  function Deletions(ns: string, dev: string, pool: seq<Address>): seq<Command>
  {
    seq(|pool|, i requires 0 <= i < |pool| => DeleteAddress(ns, dev, pool[|pool| - 1 - i]))
  }

  function Disables(ns: string, dev: string): seq<Command>
  {
    seq(6, i requires 0 <= i < 6 => DisableFeature(ns, dev, DISABLE_ORDER[i]))
  }

  function Restores(dev: string, offloads: map<Feature, bool>, order: seq<Feature>): seq<Command>
  {
    if order == [] then []
    else
      (if order[0] in offloads then [SetFeature(dev, order[0], offloads[order[0]])] else [])
      + Restores(dev, offloads, order[1..])
  }

  function Forward(b: Borrow, mtu: nat, arping: bool, ethtool: bool): seq<Command>
  {
    (if arping then Probes(b.dev, b.pool) else [])
    + [AddNamespace(b.ns), MoveIn(b.dev, b.ns), LoopbackUp(b.ns), ConfigureLink(b.ns, b.dev, mtu)]
    + Additions(b.ns, b.dev, b.pool)
    + (if ethtool then Disables(b.ns, b.dev) else [])
  }

  function Undo(b: Borrow): seq<Command>
  {
    Deletions(b.ns, b.dev, b.pool)
    + [MoveOut(b.ns, b.dev)]
    + Restores(b.dev, b.saved.offloads, RESTORE_ORDER)
    + (if b.saved.mtu.Some? then [SetMtu(b.dev, b.saved.mtu.value)] else [])
    + [SetLink(b.dev, b.saved.linkUp), DeleteNamespace(b.ns)]
  }

  function ForwardAll(borrows: seq<Borrow>, mtu: nat, arping: bool, ethtool: bool): seq<Command>
  {
    if borrows == [] then []
    else Forward(borrows[0], mtu, arping, ethtool) + ForwardAll(borrows[1..], mtu, arping, ethtool)
  }

  function UndoAll(borrows: seq<Borrow>): seq<Command>
  {
    if borrows == [] then [] else Undo(borrows[0]) + UndoAll(borrows[1..])
  }

  function Commands(job: Job): seq<Command>
  {
    ForwardAll(job.borrows, job.mtu, job.arping, job.ethtool)
  }

  function BorrowOf(d: Decision): seq<Borrow>
  {
    if d.Take? then [d.borrow] else []
  }

  function EntryOf(d: Decision): seq<EndpointPlan>
  {
    if d.Take? || d.Use? then [d.entry] else []
  }

  function JobOf(node: string, revision: string, draft: Draft, inv: Inventory): Job
  {
    Job(BorrowOf(Decide(node, revision, "client", draft.client, draft, inv))
        + BorrowOf(Decide(node, revision, "server", draft.server, draft, inv)),
        draft.mtu, inv.arping, inv.ethtool)
  }

  function PlanOf(node: string, revision: string, draft: Draft, inv: Inventory): Result<Plan>
  {
    var client := Decide(node, revision, "client", draft.client, draft, inv);
    var server := Decide(node, revision, "server", draft.server, draft, inv);
    if client.Reject? then Refusal(client.error)
    else if server.Reject? then Refusal(server.error)
    else
      var job := JobOf(node, revision, draft, inv);
      Accepted(Plan(inv.fingerprint, EntryOf(client) + EntryOf(server), Commands(job), UndoAll(job.borrows)))
  }

  /** The forward commands of one borrowed interface, pushed one at a time. */
  method ForwardCommands(b: Borrow, mtu: nat, arping: bool, ethtool: bool) returns (commands: seq<Command>)
    ensures commands == Forward(b, mtu, arping, ethtool)
  {
    commands := [];
    if arping {
      for i := 0 to |b.pool|
        invariant commands == Probes(b.dev, b.pool)[..i]
      {
        commands := commands + [ProbeAddress(b.dev, b.pool[i])];
      }
    }
    assert commands == if arping then Probes(b.dev, b.pool) else [];
    commands := commands
    + [AddNamespace(b.ns), MoveIn(b.dev, b.ns), LoopbackUp(b.ns), ConfigureLink(b.ns, b.dev, mtu)];
    ghost var head := commands;
    for i := 0 to |b.pool|
      invariant commands == head + Additions(b.ns, b.dev, b.pool)[..i]
    {
      commands := commands + [AddAddress(b.ns, b.dev, b.pool[i])];
    }
    ghost var added := commands;
    if ethtool {
      for i := 0 to |DISABLE_ORDER|
        invariant commands == added + Disables(b.ns, b.dev)[..i]
      {
        commands := commands + [DisableFeature(b.ns, b.dev, DISABLE_ORDER[i])];
      }
    }
  }

  method RestoreCommands(dev: string, offloads: map<Feature, bool>) returns (commands: seq<Command>)
    ensures commands == Restores(dev, offloads, RESTORE_ORDER)
  {
    commands := [];
    for i := 0 to |RESTORE_ORDER|
      invariant commands + Restores(dev, offloads, RESTORE_ORDER[i..]) == Restores(dev, offloads, RESTORE_ORDER)
    {
      var f := RESTORE_ORDER[i];
      RestoresNext(dev, offloads, RESTORE_ORDER, i, commands);
      if f in offloads {
        commands := commands + [SetFeature(dev, f, offloads[f])];
      }
    }
  }

  lemma RestoresNext(dev: string, offloads: map<Feature, bool>, order: seq<Feature>, i: nat, before: seq<Command>)
    requires i < |order|
    ensures before + Restores(dev, offloads, order[i..])
         == (if order[i] in offloads then before + [SetFeature(dev, order[i], offloads[order[i]])] else before)
            + Restores(dev, offloads, order[i + 1..])
  {
    assert order[i..][1..] == order[i + 1..];
  }

  /** The rollback commands of one borrowed interface. */
  method UndoCommands(b: Borrow) returns (undo: seq<Command>)
    ensures undo == Undo(b)
  {
    undo := [];
    for i := 0 to |b.pool|
      invariant undo == Deletions(b.ns, b.dev, b.pool)[..i]
    {
      undo := undo + [DeleteAddress(b.ns, b.dev, b.pool[|b.pool| - 1 - i])];
    }
    undo := undo + [MoveOut(b.ns, b.dev)];
    var features := RestoreCommands(b.dev, b.saved.offloads);
    undo := undo + features;
    if b.saved.mtu.Some? {
      undo := undo + [SetMtu(b.dev, b.saved.mtu.value)];
    }
    undo := undo + [SetLink(b.dev, b.saved.linkUp), DeleteNamespace(b.ns)];
  }

  method PlanNode(node: string, revision: string, draft: Draft, inv: Inventory) returns (r: Result<Plan>)
    ensures r == PlanOf(node, revision, draft, inv)
  {
    var targets := [("client", draft.client), ("server", draft.server)];
    var commands, undo, endpoints := [], [], [];
    ghost var borrows := [];
    ghost var client := Decide(node, revision, "client", draft.client, draft, inv);
    for i := 0 to 2
      invariant i >= 1 ==> !client.Reject?
      invariant i == 1 ==> borrows == BorrowOf(client) && endpoints == EntryOf(client)
      invariant i == 2 ==> !Decide(node, revision, "server", draft.server, draft, inv).Reject?
      invariant i == 2 ==> borrows == JobOf(node, revision, draft, inv).borrows
      invariant i == 2 ==> endpoints == EntryOf(client)
                                        + EntryOf(Decide(node, revision, "server", draft.server, draft, inv))
      invariant i == 0 ==> borrows == [] && endpoints == []
      invariant commands == ForwardAll(borrows, draft.mtu, inv.arping, inv.ethtool)
      invariant undo == UndoAll(borrows)
    {
      var decision := Decide(node, revision, targets[i].0, targets[i].1, draft, inv);
      match decision {
        case Reject(error) => return Refusal(error);
        case Skip =>
        case Use(entry) => endpoints := endpoints + [entry];
        case Take(entry, borrow) =>
          endpoints := endpoints + [entry];
          commands, undo := PushCommands(commands, undo, borrows, borrow, draft.mtu, inv.arping, inv.ethtool);
          borrows := borrows + [borrow];
      }
    }
    r := Accepted(Plan(inv.fingerprint, endpoints, commands, undo));
  }

  /** Both lists grow by the commands for one more interface. */
  method PushCommands(commands: seq<Command>, undo: seq<Command>, ghost borrows: seq<Borrow>, b: Borrow, mtu: nat,
                      arping: bool, ethtool: bool) returns (commands1: seq<Command>, undo1: seq<Command>)
    requires commands == ForwardAll(borrows, mtu, arping, ethtool) && undo == UndoAll(borrows)
    ensures commands1 == ForwardAll(borrows + [b], mtu, arping, ethtool) && undo1 == UndoAll(borrows + [b])
  {
    var more := ForwardCommands(b, mtu, arping, ethtool);
    var moreUndo := UndoCommands(b);
    ForwardAllAppend(borrows, b, mtu, arping, ethtool);
    UndoAllAppend(borrows, b);
    commands1, undo1 := commands + more, undo + moreUndo;
  }

  lemma {:induction false} ForwardAllAppend(borrows: seq<Borrow>, b: Borrow, mtu: nat, arping: bool, ethtool: bool)
    ensures ForwardAll(borrows + [b], mtu, arping, ethtool)
         == ForwardAll(borrows, mtu, arping, ethtool) + Forward(b, mtu, arping, ethtool)
  {
    if borrows == [] {
      assert borrows + [b] == [b];
      assert ForwardAll([], mtu, arping, ethtool) == [];
    } else {
      assert (borrows + [b])[1..] == borrows[1..] + [b];
      ForwardAllAppend(borrows[1..], b, mtu, arping, ethtool);
    }
  }

  lemma {:induction false} UndoAllAppend(borrows: seq<Borrow>, b: Borrow)
    ensures UndoAll(borrows + [b]) == UndoAll(borrows) + Undo(b)
  {
    if borrows == [] {
      assert borrows + [b] == [b];
    } else {
      assert (borrows + [b])[1..] == borrows[1..] + [b];
      UndoAllAppend(borrows[1..], b);
    }
  }
}
