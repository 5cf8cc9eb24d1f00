/** What planning accepts, why it refuses, and what an accepted plan says: said of the inventory and the
    draft alone. */
module PlanConditions {
  import opened Base
  import opened HostModel
  import opened NetworkPlan

  predicate IsLetterOrDigit(c: char)
  {
    'a' <= c <= 'z' || 'A' <= c <= 'Z' || '0' <= c <= '9'
  }

  /** One to 64 letters, digits, hyphens, underscores and dots. */
  ghost predicate SafeName(s: string)
  {
    1 <= |s| <= 64 && forall i :: 0 <= i < |s| ==> IsLetterOrDigit(s[i]) || s[i] in "-_."
  }

  predicate FirstNamed(list: seq<Interface>, name: string, k: nat)
  {
    k < |list| && list[k].name == name && forall j :: 0 <= j < k ==> list[j].name != name
  }

  ghost predicate Known(e: Endpoint, inv: Inventory)
  {
    exists k: nat :: FirstNamed(inv.interfaces, e.interfaceName, k)
  }

  /** Address number `n` of the pool that starts at `start`. */
  function PoolAddress(start: Address, n: nat): Address
  {
    Address((start.ip + n) % 0x1_0000_0000, start.prefix)
  }

  ghost predicate AllPresent(i: Interface, e: Endpoint)
    requires e.cidr.Some?
  {
    forall n: nat :: n < e.count ==> Present(i, PoolAddress(e.cidr.value, n).ip)
  }

  ghost predicate Present(i: Interface, ip: nat)
  {
    exists k: nat :: IsAt(i.addresses, k, ip)
  }

  predicate IsAt(list: seq<Address>, k: nat, ip: nat)
  {
    k < |list| && list[k].ip == ip
  }

  /** Kinds of interfaces that a plan takes only if the draft allows virtual ones. */
  predicate IsVirtual(i: Interface)
  {
    i.kind == Some("veth") || i.kind == Some("vxlan") || i.kind == Some("bridge") || i.kind == Some("macvlan")
    || i.kind == Some("macvtap")
  }

  /** The namespace of a role: "pt-", the first eight characters of the revision, "-" and the role. */
  function RoleNamespace(revision: string, role: string): string
  {
    "pt-" + (if |revision| > 8 then revision[..8] else revision) + "-" + role
  }

  /** The interface may be taken into a namespace. */
  ghost predicate Takeable(i: Interface, revision: string, role: string, draft: Draft)
  {
    && i.addresses == [] && i.master.None? && (IsVirtual(i) ==> draft.allowVirtual)
    && SafeName(RoleNamespace(revision, role))
  }

  /** All that planning demands of one endpoint. */
  ghost predicate Acceptable(revision: string, role: string, e: Endpoint, draft: Draft, inv: Inventory)
  {
    && SafeName(e.interfaceName) && e.interfaceName !in inv.protectedNames && e.cidr.Some?
    && exists k: nat ::
         FirstNamed(inv.interfaces, e.interfaceName, k)
         && if draft.operatorManaged then AllPresent(inv.interfaces[k], e)
            else Takeable(inv.interfaces[k], revision, role, draft)
  }

  /** The condition that an error names is violated. */
  ghost predicate Violated(error: PlanError, revision: string, role: string, e: Endpoint, draft: Draft, inv: Inventory)
  {
    match error
    case UnsafeIdentifier =>
      !SafeName(e.interfaceName) || (!draft.operatorManaged && !SafeName(RoleNamespace(revision, role)))
    case InterfaceNotFound => !Known(e, inv)
    case ManagementInterface => e.interfaceName in inv.protectedNames
    case InvalidCidr => e.cidr.None?
    case MissingAddresses =>
      draft.operatorManaged && e.cidr.Some?
      && exists k: nat :: FirstNamed(inv.interfaces, e.interfaceName, k) && !AllPresent(inv.interfaces[k], e)
    case AlreadyAddressed =>
      !draft.operatorManaged
      && exists k: nat :: FirstNamed(inv.interfaces, e.interfaceName, k) && inv.interfaces[k].addresses != []
    case Enslaved =>
      !draft.operatorManaged
      && exists k: nat :: FirstNamed(inv.interfaces, e.interfaceName, k) && inv.interfaces[k].master.Some?
    case VirtualInterface =>
      !draft.operatorManaged && !draft.allowVirtual
      && exists k: nat :: FirstNamed(inv.interfaces, e.interfaceName, k) && IsVirtual(inv.interfaces[k])
  }

  // ----- The tests of planning

  lemma {:induction false} SafeMeans(s: string)
    ensures SafeIdentifier(s) <==> SafeName(s)
  {
  }

  lemma {:induction false} FoundIsFirst(list: seq<Interface>, name: string)
    ensures match FindInterface(list, name)
            case Some(i) => exists k: nat :: FirstNamed(list, name, k) && list[k] == i
            case None => forall k: nat :: !FirstNamed(list, name, k)
    decreases |list|
  {
    if list != [] {
      if list[0].name == name {
        assert FirstNamed(list, name, 0);
      } else {
        FoundIsFirst(list[1..], name);
        match FindInterface(list[1..], name)
        case Some(i) =>
          var k: nat :| FirstNamed(list[1..], name, k) && list[1..][k] == i;
          assert FirstNamed(list, name, k + 1) by {
            assert forall j :: 0 < j < k + 1 ==> list[j] == list[1..][j - 1];
          }
        case None =>
      }
    }
  }

  lemma {:induction false} FirstIsOne(list: seq<Interface>, name: string, j: nat, k: nat)
    requires FirstNamed(list, name, j) && FirstNamed(list, name, k)
    ensures j == k
  {
  }

  lemma {:induction false} PoolIsConsecutive(start: Address, count: nat)
    ensures |ExpandPool(start, count)| == count
    ensures forall n :: 0 <= n < count ==> ExpandPool(start, count)[n] == PoolAddress(start, n)
  {
  }

  lemma {:induction false} PresentAt(i: Interface, e: Endpoint, n: nat)
    requires e.cidr.Some? && n < e.count
    ensures n < |ExpandPool(e.cidr.value, e.count)|
    ensures HasIp(i.addresses, ExpandPool(e.cidr.value, e.count)[n].ip)
       <==> Present(i, PoolAddress(e.cidr.value, n).ip)
  {
    var ip := PoolAddress(e.cidr.value, n).ip;
    PoolIsConsecutive(e.cidr.value, e.count);
    if HasIp(i.addresses, ip) {
      var k :| 0 <= k < |i.addresses| && i.addresses[k].ip == ip;
      assert IsAt(i.addresses, k, ip);
    }
  }

  lemma {:induction false} PresentMeans(i: Interface, e: Endpoint)
    requires e.cidr.Some?
    ensures var pool := ExpandPool(e.cidr.value, e.count);
            (exists n :: 0 <= n < |pool| && !HasIp(i.addresses, pool[n].ip)) <==> !AllPresent(i, e)
  {
    var pool := ExpandPool(e.cidr.value, e.count);
    PoolIsConsecutive(e.cidr.value, e.count);
    forall n: nat | n < e.count
      ensures HasIp(i.addresses, pool[n].ip) <==> Present(i, PoolAddress(e.cidr.value, n).ip)
    {
      PresentAt(i, e, n);
    }
    if !AllPresent(i, e) {
      var n: nat :| n < e.count && !Present(i, PoolAddress(e.cidr.value, n).ip);
      assert !HasIp(i.addresses, pool[n].ip);
    }
  }

  lemma {:induction false} VirtualMeans(i: Interface)
    ensures i.kind.Some? && i.kind.value in VIRTUAL_KINDS <==> IsVirtual(i)
  {
  }

  lemma {:induction false} NamespaceMeans(revision: string, role: string)
    ensures NamespaceName(revision, role) == RoleNamespace(revision, role)
  {
    if |revision| == 8 {
      assert revision[..8] == revision;
    }
  }

  // ----- One endpoint

  /** The decision about an interface that is found, not protected and has a readable start address. */
  lemma {:induction false} FoundDecision(revision: string, role: string, e: Endpoint, draft: Draft, inv: Inventory,
                                         k: nat)
    requires FirstNamed(inv.interfaces, e.interfaceName, k) && FindInterface(inv.interfaces, e.interfaceName)
                                                               == Some(inv.interfaces[k])
    requires SafeIdentifier(e.interfaceName) && e.interfaceName !in inv.protectedNames && e.cidr.Some?
    ensures var d, i := Decide(e.node, revision, role, e, draft, inv), inv.interfaces[k];
            match d
            case Skip => false
            case Reject(error) =>
              Violated(error, revision, role, e, draft, inv)
              && !(if draft.operatorManaged then AllPresent(i, e) else Takeable(i, revision, role, draft))
            case Use(_) => draft.operatorManaged && AllPresent(i, e)
            case Take(_, _) => !draft.operatorManaged && Takeable(i, revision, role, draft)
  {
    var i := inv.interfaces[k];
    PresentMeans(i, e);
    VirtualMeans(i);
    NamespaceMeans(revision, role);
    SafeMeans(NamespaceName(revision, role));
  }

  lemma {:induction false} DecisionMeans(revision: string, role: string, e: Endpoint, draft: Draft, inv: Inventory)
    ensures var d := Decide(e.node, revision, role, e, draft, inv);
            && !d.Skip?
            && (d.Reject? <==> !Acceptable(revision, role, e, draft, inv))
            && (d.Reject? ==> Violated(d.error, revision, role, e, draft, inv))
  {
    SafeMeans(e.interfaceName);
    FoundIsFirst(inv.interfaces, e.interfaceName);
    match FindInterface(inv.interfaces, e.interfaceName)
    case None =>
    case Some(i) =>
      var k: nat :| FirstNamed(inv.interfaces, e.interfaceName, k) && inv.interfaces[k] == i;
      forall j: nat | FirstNamed(inv.interfaces, e.interfaceName, j)
        ensures j == k
      {
        FirstIsOne(inv.interfaces, e.interfaceName, j, k);
      }
      if SafeIdentifier(e.interfaceName) && e.interfaceName !in inv.protectedNames && e.cidr.Some? {
        FoundDecision(revision, role, e, draft, inv, k);
      }
  }

  // ----- Plans

  /** The endpoints that a node plays, the client first. */
  function Here(node: string, draft: Draft): seq<(string, Endpoint)>
  {
    (if draft.client.node == node then [("client", draft.client)] else [])
    + (if draft.server.node == node then [("server", draft.server)] else [])
  }

  ghost predicate AcceptableHere(node: string, revision: string, draft: Draft, inv: Inventory, i: nat)
    requires i < |Here(node, draft)|
  {
    Acceptable(revision, Here(node, draft)[i].0, Here(node, draft)[i].1, draft, inv)
  }

  /** Endpoint number `i` is the first that is not acceptable, and the error names what it violates. */
  ghost predicate RefusedAt(error: PlanError, node: string, revision: string, draft: Draft, inv: Inventory, i: nat)
  {
    && i < |Here(node, draft)| && !AcceptableHere(node, revision, draft, inv, i)
    && (forall j: nat :: j < i ==> AcceptableHere(node, revision, draft, inv, j))
    && Violated(error, revision, Here(node, draft)[i].0, Here(node, draft)[i].1, draft, inv)
  }

  /** A plan is accepted exactly if every endpoint of the node is acceptable; a refusal names a condition
      that the first endpoint that is not acceptable violates. */
  lemma {:induction false} PlanAcceptedIff(node: string, revision: string, draft: Draft, inv: Inventory)
    ensures PlanOf(node, revision, draft, inv).Accepted?
       <==> (forall i: nat :: i < |Here(node, draft)| ==> AcceptableHere(node, revision, draft, inv, i))
    ensures PlanOf(node, revision, draft, inv).Refusal? ==>
              exists i: nat :: RefusedAt(PlanOf(node, revision, draft, inv).error, node, revision, draft, inv, i)
  {
    DecisionMeans(revision, "client", draft.client, draft, inv);
    DecisionMeans(revision, "server", draft.server, draft, inv);
    var here := Here(node, draft);
    var r := PlanOf(node, revision, draft, inv);
    if draft.client.node == node {
      assert here[0] == ("client", draft.client);
      if !AcceptableHere(node, revision, draft, inv, 0) {
        assert RefusedAt(r.error, node, revision, draft, inv, 0);
      }
    }
    if draft.server.node == node {
      assert here[|here| - 1] == ("server", draft.server);
      if r.Refusal? && (draft.client.node == node ==> AcceptableHere(node, revision, draft, inv, 0)) {
        assert RefusedAt(r.error, node, revision, draft, inv, |here| - 1);
      }
    }
  }

  // ----- What an accepted plan says

  ghost predicate EntryFor(entry: EndpointPlan, revision: string, role: string, e: Endpoint, draft: Draft)
  {
    && e.cidr.Some? && entry.role == role && entry.interfaceName == e.interfaceName
    && entry.ns == (if draft.operatorManaged then "" else RoleNamespace(revision, role))
    && |entry.addresses| == e.count
    && forall n: nat :: n < e.count ==> entry.addresses[n] == PoolAddress(e.cidr.value, n)
  }

  ghost predicate BorrowFor(b: Borrow, entry: EndpointPlan, inv: Inventory)
  {
    && b.dev == entry.interfaceName && b.ns == entry.ns && b.pool == entry.addresses
    && exists k: nat :: FirstNamed(inv.interfaces, b.dev, k) && b.saved == inv.interfaces[k]
  }

  lemma {:induction false} DecisionTells(revision: string, role: string, e: Endpoint, draft: Draft, inv: Inventory)
    ensures var d := Decide(e.node, revision, role, e, draft, inv);
            && (d.Use? ==> draft.operatorManaged && EntryFor(d.entry, revision, role, e, draft))
            && (d.Take? ==> !draft.operatorManaged && EntryFor(d.entry, revision, role, e, draft)
                            && BorrowFor(d.borrow, d.entry, inv))
  {
    FoundIsFirst(inv.interfaces, e.interfaceName);
    NamespaceMeans(revision, role);
    if e.cidr.Some? {
      PoolIsConsecutive(e.cidr.value, e.count);
    }
  }

  ghost predicate EntriesFor(entries: seq<EndpointPlan>, node: string, revision: string, draft: Draft)
  {
    && |entries| == |Here(node, draft)|
    && forall i :: 0 <= i < |entries| ==>
         EntryFor(entries[i], revision, Here(node, draft)[i].0, Here(node, draft)[i].1, draft)
  }

  ghost predicate BorrowsFor(borrows: seq<Borrow>, entries: seq<EndpointPlan>, inv: Inventory)
  {
    |borrows| == |entries| && forall i :: 0 <= i < |entries| ==> BorrowFor(borrows[i], entries[i], inv)
  }

  /** An accepted plan carries the fingerprint of the inventory and lists the endpoints of the node. Managed
      by the operator it has no commands; otherwise its commands and its undo list are those for taking
      each interface, as the inventory describes it, into the namespace of its role. */
  lemma {:induction false} PlanTells(node: string, revision: string, draft: Draft, inv: Inventory)
    requires PlanOf(node, revision, draft, inv).Accepted?
    ensures var plan := PlanOf(node, revision, draft, inv).value;
            && plan.fingerprint == inv.fingerprint && EntriesFor(plan.endpoints, node, revision, draft)
            && (draft.operatorManaged ==> plan.commands == [] && plan.undo == [])
            && (!draft.operatorManaged ==>
                  exists borrows: seq<Borrow> ::
                    && BorrowsFor(borrows, plan.endpoints, inv)
                    && plan.commands == Commands(Job(borrows, draft.mtu, inv.arping, inv.ethtool))
                    && plan.undo == UndoAll(borrows))
  {
    var client := Decide(node, revision, "client", draft.client, draft, inv);
    var server := Decide(node, revision, "server", draft.server, draft, inv);
    DecisionMeans(revision, "client", draft.client, draft, inv);
    DecisionMeans(revision, "server", draft.server, draft, inv);
    DecisionTells(revision, "client", draft.client, draft, inv);
    DecisionTells(revision, "server", draft.server, draft, inv);
    var borrows := BorrowOf(client) + BorrowOf(server);
    var plan := PlanOf(node, revision, draft, inv).value;
    EntriesTogether(node, revision, draft, client, server);
    if !draft.operatorManaged {
      BorrowsTogether(client, server, inv);
    }
  }

  lemma {:induction false} EntriesTogether(node: string, revision: string, draft: Draft, client: Decision,
                                           server: Decision)
    requires if draft.client.node == node
             then client.Use? || client.Take? else client.Skip?
    requires if draft.server.node == node
             then server.Use? || server.Take? else server.Skip?
    requires client.Use? || client.Take? ==> EntryFor(client.entry, revision, "client", draft.client, draft)
    requires server.Use? || server.Take? ==> EntryFor(server.entry, revision, "server", draft.server, draft)
    ensures EntriesFor(EntryOf(client) + EntryOf(server), node, revision, draft)
  {
  }

  lemma {:induction false} BorrowsTogether(client: Decision, server: Decision, inv: Inventory)
    requires !client.Use? && !server.Use?
    requires client.Take? ==> BorrowFor(client.borrow, client.entry, inv)
    requires server.Take? ==> BorrowFor(server.borrow, server.entry, inv)
    ensures BorrowsFor(BorrowOf(client) + BorrowOf(server), EntryOf(client) + EntryOf(server), inv)
  {
  }
}
