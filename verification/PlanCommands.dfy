/** The two command lists of a borrowed interface, command by command, and what makes a command fail on the
    host. */
module PlanCommands {
  import opened HostModel
  import opened NetworkPlan

  // ----- The lists

  lemma {:induction false} Places(a: seq<Command>, b: seq<Command>, c: seq<Command>, d: seq<Command>)
    requires |b| == 4
    ensures var list, n := a + b + c + d, |a|;
            && |list| == n + 4 + |c| + |d|
            && (forall i :: 0 <= i < n ==> list[i] == a[i])
            && list[n] == b[0] && list[n + 1] == b[1] && list[n + 2] == b[2] && list[n + 3] == b[3]
            && (forall i :: 0 <= i < |c| ==> list[n + 4 + i] == c[i])
            && (forall i :: 0 <= i < |d| ==> list[n + 4 + |c| + i] == d[i])
  {
  }

  function Start(b: Borrow, arping: bool): nat
  {
    if arping then |b.pool| else 0
  }

  function Setup(b: Borrow, mtu: nat): seq<Command>
  {
    [AddNamespace(b.ns), MoveIn(b.dev, b.ns), LoopbackUp(b.ns), ConfigureLink(b.ns, b.dev, mtu)]
  }

  lemma {:induction false} ForwardIs(b: Borrow, mtu: nat, arping: bool, ethtool: bool, probes: seq<Command>,
                                     offloads: seq<Command>)
    requires probes == if arping then Probes(b.dev, b.pool) else []
    requires offloads == if ethtool then Disables(b.ns, b.dev) else []
    ensures Forward(b, mtu, arping, ethtool) == probes + Setup(b, mtu) + Additions(b.ns, b.dev, b.pool) + offloads
    ensures |probes| == Start(b, arping) && |Additions(b.ns, b.dev, b.pool)| == |b.pool|
    ensures |offloads| == if ethtool then 6 else 0
  {
  }

  lemma {:induction false} AddressCommands(ns: string, dev: string, pool: seq<Address>)
    ensures forall i :: 0 <= i < |pool| ==> Probes(dev, pool)[i] == ProbeAddress(dev, pool[i])
    ensures forall i :: 0 <= i < |pool| ==> Additions(ns, dev, pool)[i] == AddAddress(ns, dev, pool[i])
  {
  }

  lemma {:induction false} OffloadCommands(ns: string, dev: string)
    ensures Disables(ns, dev) == [DisableFeature(ns, dev, Gro), DisableFeature(ns, dev, Gso),
                                  DisableFeature(ns, dev, Tso), DisableFeature(ns, dev, Lro),
                                  DisableFeature(ns, dev, Rx), DisableFeature(ns, dev, Tx)]
  {
  }

  /** The commands stand in this order, and there are no others. */
  ghost predicate Prepares(list: seq<Command>, b: Borrow, mtu: nat, arping: bool, ethtool: bool)
  {
    var at := Start(b, arping);
    && |list| == at + 4 + |b.pool| + (if ethtool then 6 else 0)
    && (arping ==> forall i :: 0 <= i < |b.pool| ==> list[i] == ProbeAddress(b.dev, b.pool[i]))
    && list[at] == AddNamespace(b.ns) && list[at + 1] == MoveIn(b.dev, b.ns)
    && list[at + 2] == LoopbackUp(b.ns) && list[at + 3] == ConfigureLink(b.ns, b.dev, mtu)
    && (forall i :: 0 <= i < |b.pool| ==> list[at + 4 + i] == AddAddress(b.ns, b.dev, b.pool[i]))
    && (ethtool ==> forall i :: 0 <= i < 6 ==>
          list[at + 4 + |b.pool| + i] == DisableFeature(b.ns, b.dev, [Gro, Gso, Tso, Lro, Rx, Tx][i]))
  }

  lemma {:induction false} PartsPrepare(list: seq<Command>, b: Borrow, mtu: nat, arping: bool, ethtool: bool,
                                        probes: seq<Command>, additions: seq<Command>, offloads: seq<Command>)
    requires list == probes + Setup(b, mtu) + additions + offloads
    requires |probes| == Start(b, arping) && |additions| == |b.pool| && |offloads| == if ethtool then 6 else 0
    requires arping ==> forall i :: 0 <= i < |b.pool| ==> probes[i] == ProbeAddress(b.dev, b.pool[i])
    requires forall i :: 0 <= i < |b.pool| ==> additions[i] == AddAddress(b.ns, b.dev, b.pool[i])
    requires ethtool ==> forall i :: 0 <= i < 6 ==>
               offloads[i] == DisableFeature(b.ns, b.dev, [Gro, Gso, Tso, Lro, Rx, Tx][i])
    ensures Prepares(list, b, mtu, arping, ethtool)
  {
    Places(probes, Setup(b, mtu), additions, offloads);
  }

  /** First every address is probed, if the node can; then the interface is moved into its new namespace and
      brought up with the wanted MTU, with the loopback interface; then every address is added; and then every
      offload is disabled, if the node can, the segmentation offloads before the checksums. */
  lemma {:induction false} ForwardTells(b: Borrow, mtu: nat, arping: bool, ethtool: bool)
    ensures Prepares(Forward(b, mtu, arping, ethtool), b, mtu, arping, ethtool)
  {
    var probes := if arping then Probes(b.dev, b.pool) else [];
    var offloads := if ethtool then Disables(b.ns, b.dev) else [];
    ForwardIs(b, mtu, arping, ethtool, probes, offloads);
    AddressCommands(b.ns, b.dev, b.pool);
    OffloadCommands(b.ns, b.dev);
    PartsPrepare(Forward(b, mtu, arping, ethtool), b, mtu, arping, ethtool, probes, Additions(b.ns, b.dev, b.pool),
                 offloads);
  }

  /** The command that restores an offload that was recorded. */
  function Restore(b: Borrow, f: Feature): seq<Command>
  {
    if f in b.saved.offloads then [SetFeature(b.dev, f, b.saved.offloads[f])] else []
  }

  function RestoreMtu(b: Borrow): seq<Command>
  {
    match b.saved.mtu
    case Some(mtu) => [SetMtu(b.dev, mtu)]
    case None => []
  }

  lemma {:induction false} RestoresTell(b: Borrow)
    ensures Restores(b.dev, b.saved.offloads, RESTORE_ORDER)
         == Restore(b, Tx)
            + (Restore(b, Rx) + (Restore(b, Tso) + (Restore(b, Gso) + (Restore(b, Gro) + (Restore(b, Lro) + [])))))
  {
    RestoresOne(b, [Tx, Rx, Tso, Gso, Gro, Lro]);
    RestoresOne(b, [Rx, Tso, Gso, Gro, Lro]);
    RestoresOne(b, [Tso, Gso, Gro, Lro]);
    RestoresOne(b, [Gso, Gro, Lro]);
    RestoresOne(b, [Gro, Lro]);
    RestoresOne(b, [Lro]);
  }

  lemma {:induction false} RestoresOne(b: Borrow, order: seq<Feature>)
    requires order != []
    ensures Restores(b.dev, b.saved.offloads, order)
         == Restore(b, order[0]) + Restores(b.dev, b.saved.offloads, order[1..])
    ensures Restores(b.dev, b.saved.offloads, []) == []
  {
  }

  /** The addresses are deleted, the last first; the interface is moved home; the recorded offloads are set
      again, the checksums before the segmentation offloads; then the recorded MTU and the link state; and the
      namespace is deleted last. */
  lemma {:induction false} UndoTells(b: Borrow)
    ensures var list, n := Undo(b), |b.pool|;
            && n < |list|
            && (forall i :: 0 <= i < n ==> list[i] == DeleteAddress(b.ns, b.dev, b.pool[n - 1 - i]))
            && list[n] == MoveOut(b.ns, b.dev)
            && list[n + 1..]
            == Restore(b, Tx)
               + (Restore(b, Rx) + (Restore(b, Tso) + (Restore(b, Gso) + (Restore(b, Gro) + (Restore(b, Lro) + [])))))
               + RestoreMtu(b) + [SetLink(b.dev, b.saved.linkUp), DeleteNamespace(b.ns)]
  {
    RestoresTell(b);
    UndoParts(Deletions(b.ns, b.dev, b.pool), MoveOut(b.ns, b.dev), Restores(b.dev, b.saved.offloads, RESTORE_ORDER),
              RestoreMtu(b), [SetLink(b.dev, b.saved.linkUp), DeleteNamespace(b.ns)]);
  }

  lemma {:induction false} UndoParts(a: seq<Command>, c: Command, d: seq<Command>, e: seq<Command>, f: seq<Command>)
    ensures var list := a + [c] + d + e + f;
            list[..|a|] == a && list[|a|] == c && list[|a| + 1..] == d + e + f
  {
  }

  // ----- The host

  function PowerOfTwo(n: nat): nat
  {
    if n == 0 then 1 else 2 * PowerOfTwo(n - 1)
  }

  /** Two addresses are in one subnet if the bits of the prefix agree. */
  lemma {:induction false} BlocksAreSubnets(prefix: nat)
    requires prefix <= 32
    ensures BlockSize(prefix) == PowerOfTwo(32 - prefix)
    decreases 32 - prefix
  {
    if prefix < 32 {
      BlocksAreSubnets(prefix + 1);
    }
  }

  /** What a command acts on: a link at home, a link in a namespace, a namespace, or nothing that must exist. */
  datatype Target = AtHome(dev: string) | InNamespace(dev: string, ns: string) | Namespace(ns: string) | New

  function TargetOf(c: Command): Target
  {
    match c
    case ProbeAddress(dev, _) => AtHome(dev)
    case AddNamespace(_) => New
    case MoveIn(dev, _) => AtHome(dev)
    case LoopbackUp(ns) => Namespace(ns)
    case ConfigureLink(ns, dev, _) => InNamespace(dev, ns)
    case AddAddress(ns, dev, _) => InNamespace(dev, ns)
    case DisableFeature(ns, dev, _) => InNamespace(dev, ns)
    case DeleteAddress(ns, dev, _) => InNamespace(dev, ns)
    case MoveOut(ns, dev) => InNamespace(dev, ns)
    case SetFeature(dev, _, _) => AtHome(dev)
    case SetMtu(dev, _) => AtHome(dev)
    case SetLink(dev, _) => AtHome(dev)
    case DeleteNamespace(ns) => Namespace(ns)
  }

  predicate Exists(h: Host, t: Target)
  {
    match t
    case AtHome(dev) => dev in h.links && h.links[dev].place == Root
    case InNamespace(dev, ns) => ns in h.namespaces && dev in h.links && h.links[dev].place == Inside(ns)
    case Namespace(ns) => ns in h.namespaces
    case New => true
  }

  /** A namespace or an address that is there already, a namespace that is not there, a segmentation offload
      without its checksum. */
  predicate Forbidden(c: Command, h: Host)
    requires Exists(h, TargetOf(c))
  {
    match c
    case AddNamespace(ns) => ns in h.namespaces
    case MoveIn(_, ns) => ns !in h.namespaces
    case AddAddress(_, dev, a) => a in h.links[dev].addresses
    case SetFeature(dev, f, on) => on && f in {Tso, Gso} && Tx !in h.links[dev].enabled
    case _ => false
  }

  /** A command fails because something is absent exactly if its target, or the address to delete, is; and it
      is refused exactly for the named reasons. It takes no interface off the host, except together with its
      namespace, and no namespace but the one it deletes. */
  lemma {:induction false} RunFailsIff(c: Command, h: Host)
    ensures Run(c, h) == Absent
       <==> !Exists(h, TargetOf(c)) || (c.DeleteAddress? && c.address !in h.links[c.dev].addresses)
    ensures Run(c, h) == Refused <==> Exists(h, TargetOf(c)) && Forbidden(c, h)
    ensures Run(c, h).Done? ==>
              var after := Run(c, h).host;
              && (forall dev :: dev in after.links ==> dev in h.links)
              && (forall dev :: dev in h.links && dev !in after.links ==>
                    c.DeleteNamespace? && h.links[dev].place == Inside(c.ns))
              && (forall ns :: ns in h.namespaces && ns !in after.namespaces ==> c == DeleteNamespace(ns))
              && (forall ns :: ns in after.namespaces && ns !in h.namespaces ==> c == AddNamespace(ns))
  {
  }
}
