/** The part of a Linux host that the network agent changes, and what each command the agent
    runs does to it. Interface names are unique over the whole host, addresses are IPv4. */
module HostModel {

  datatype Feature = Tx | Rx | Tso | Gso | Gro | Lro

  datatype Address = Address(ip: nat, prefix: nat)

  datatype Place = Root | Inside(ns: string)

  /** `addresses` is in the order of assignment: the first address of a subnet is its primary. */
  datatype Link = Link(place: Place, addresses: seq<Address>, mtu: nat, up: bool, enabled: set<Feature>)

  datatype Host = Host(namespaces: set<string>, links: map<string, Link>)

  /** One constructor for each argument vector that a network plan can contain. */
  datatype Command =
    | ProbeAddress(dev: string, address: Address)              // arping -D -I dev address
    | AddNamespace(ns: string)                                 // ip netns add ns
    | MoveIn(dev: string, ns: string)                          // ip link set dev netns ns
    | LoopbackUp(ns: string)                                   // ip -n ns link set lo up
    | ConfigureLink(ns: string, dev: string, mtu: nat)         // ip -n ns link set dev mtu mtu up
    | AddAddress(ns: string, dev: string, address: Address)    // ip -n ns address add address dev dev
    | DisableFeature(ns: string, dev: string, feature: Feature) // ip netns exec ns ethtool -K dev feature off
    | DeleteAddress(ns: string, dev: string, address: Address) // ip -n ns address del address dev dev
    | MoveOut(ns: string, dev: string)                         // ip -n ns link set dev netns 1
    | SetFeature(dev: string, feature: Feature, on: bool)      // ethtool -K dev feature on|off
    | SetMtu(dev: string, mtu: nat)                            // ip link set dev mtu mtu
    | SetLink(dev: string, up: bool)                           // ip link set dev up|down
    | DeleteNamespace(ns: string)                              // ip netns del ns

  /** `Absent` is a failure whose message says that the namespace, device or address is not there. */
  datatype Outcome = Done(host: Host) | Absent | Refused

  function BlockSize(prefix: nat): nat
    decreases 32 - prefix
  {
    if prefix >= 32 then 1 else 2 * BlockSize(prefix + 1)
  }

  lemma BlockSizePositive(prefix: nat)
    ensures BlockSize(prefix) > 0
    decreases 32 - prefix
  {
  }

  predicate SameSubnet(a: Address, b: Address)
  {
    BlockSizePositive(a.prefix);
    a.prefix == b.prefix && a.ip / BlockSize(a.prefix) == b.ip / BlockSize(a.prefix)
  }

  function Without(list: seq<Address>, a: Address): seq<Address>
  {
    if list == [] then []
    else if list[0] == a then Without(list[1..], a)
    else [list[0]] + Without(list[1..], a)
  }

  function WithoutSubnet(list: seq<Address>, a: Address): seq<Address>
  {
    if list == [] then []
    else if SameSubnet(list[0], a) then WithoutSubnet(list[1..], a)
    else [list[0]] + WithoutSubnet(list[1..], a)
  }

  /** Deleting the primary address of a subnet takes its secondary addresses with it. */
  function Forget(list: seq<Address>, a: Address): seq<Address>
  {
    if list != [] && SameSubnet(list[0], a) && list[0] != a then Without(list, a)
    else if list == [] then []
    else if list[0] == a then WithoutSubnet(list, a)
    else [list[0]] + Forget(list[1..], a)
  }

  predicate NeedsChecksum(f: Feature)
  {
    f == Tso || f == Gso
  }

  /** Drivers reject segmentation offloads while transmit checksums are off. */
  predicate Consistent(enabled: set<Feature>)
  {
    Tso in enabled || Gso in enabled ==> Tx in enabled
  }

  function Disable(enabled: set<Feature>, f: Feature): set<Feature>
  {
    if f == Tx then enabled - {Tx, Tso, Gso} else enabled - {f}
  }

  predicate IsInside(h: Host, dev: string, ns: string)
  {
    ns in h.namespaces && dev in h.links && h.links[dev].place == Inside(ns)
  }

  predicate IsRoot(h: Host, dev: string)
  {
    dev in h.links && h.links[dev].place == Root
  }

  function Update(h: Host, dev: string, link: Link): Host
  {
    h.(links := h.links[dev := link])
  }

  /** Moving a device between namespaces flushes its IPv4 addresses and takes it down. */
  function Moved(link: Link, place: Place): Link
  {
    link.(place := place, addresses := [], up := false)
  }

  function Run(c: Command, h: Host): Outcome
  {
    match c
    case ProbeAddress(dev, _) =>
      if IsRoot(h, dev) then Done(h) else Absent
    case AddNamespace(ns) =>
      if ns in h.namespaces then Refused else Done(h.(namespaces := h.namespaces + {ns}))
    case MoveIn(dev, ns) =>
      if !IsRoot(h, dev) then Absent
      else if ns !in h.namespaces then Refused
      else Done(Update(h, dev, Moved(h.links[dev], Inside(ns))))
    case LoopbackUp(ns) =>
      if ns in h.namespaces then Done(h) else Absent
    case ConfigureLink(ns, dev, mtu) =>
      if !IsInside(h, dev, ns) then Absent
      else Done(Update(h, dev, h.links[dev].(mtu := mtu, up := true)))
    case AddAddress(ns, dev, a) =>
      if !IsInside(h, dev, ns) then Absent
      else if a in h.links[dev].addresses then Refused
      else Done(Update(h, dev, h.links[dev].(addresses := h.links[dev].addresses + [a])))
    case DisableFeature(ns, dev, f) =>
      if !IsInside(h, dev, ns) then Absent
      else Done(Update(h, dev, h.links[dev].(enabled := Disable(h.links[dev].enabled, f))))
    case DeleteAddress(ns, dev, a) =>
      if !IsInside(h, dev, ns) || a !in h.links[dev].addresses then Absent
      else Done(Update(h, dev, h.links[dev].(addresses := Forget(h.links[dev].addresses, a))))
    case MoveOut(ns, dev) =>
      if !IsInside(h, dev, ns) then Absent
      else Done(Update(h, dev, Moved(h.links[dev], Root)))
    case SetFeature(dev, f, on) =>
      if !IsRoot(h, dev) then Absent
      else
        var enabled := h.links[dev].enabled;
        if on && NeedsChecksum(f) && Tx !in enabled then Refused
        else Done(Update(h, dev, h.links[dev].(enabled := if on then enabled + {f} else Disable(enabled, f))))
    case SetMtu(dev, mtu) =>
      if !IsRoot(h, dev) then Absent else Done(Update(h, dev, h.links[dev].(mtu := mtu)))
    case SetLink(dev, up) =>
      if !IsRoot(h, dev) then Absent else Done(Update(h, dev, h.links[dev].(up := up)))
    case DeleteNamespace(ns) =>
      if ns !in h.namespaces then Absent
      else Done(Host(h.namespaces - {ns},
                     map dev | dev in h.links && h.links[dev].place != Inside(ns) :: h.links[dev]))
  }

  /** What the inventory fingerprint covers: the links of the root namespace. Namespaces and
      links that were moved into one are not part of it. */
  function Visible(h: Host): map<string, Link>
  {
    map dev | dev in h.links && h.links[dev].place == Root :: h.links[dev]
  }
}
