/** VLANs, port channels, their members and the router interfaces: what a port may be at one time. */
module PortRoles {
  import opened JsonTree
  import opened Decimal
  import VniMaps

  // ---------- Names ----------

  datatype InterfaceTable = Interface | PortChannelInterface | VlanInterface | LoopbackInterface | VlanSubInterface

  /** The PORT table, and the table that get_interface_table_name gives for a name */
  datatype Names = Names(ports: set<string>, tableOf: string -> Option<InterfaceTable>)

  predicate HasPrefix(name: string, prefix: string) {
    |name| >= |prefix| && name[..|prefix|] == prefix
  }

  predicate IsPortChannelName(name: string) {
    HasPrefix(name, "PortChannel") && AllDigits(name[11..]) && Value(name[11..]) <= 9999 && |name| <= 15
  }

  /** A port channel is called PortChannel and a number up to 9999, in 15 characters at most. */
  lemma PortChannelNameIff(name: string)
    ensures IsPortChannelName(name) <==>
      exists number :: name == "PortChannel" + number && AllDigits(number) && Value(number) <= 9999 && |name| <= 15
  {
    if IsPortChannelName(name) {
      assert name == "PortChannel" + name[11..];
    }
    forall number | name == "PortChannel" + number ensures HasPrefix(name, "PortChannel") && name[11..] == number {
      assert |"PortChannel"| == 11 && name[..11] == "PortChannel";
    }
  }

  /** Ports are called Ethernet..., and ports and port channels have their own interface tables. */
  ghost predicate Naming(n: Names) {
    && (forall p | p in n.ports :: HasPrefix(p, "Ethernet") && n.tableOf(p) == Some(Interface))
    && (forall pc | IsPortChannelName(pc) :: n.tableOf(pc) == Some(PortChannelInterface))
  }

  lemma NotBoth(name: string)
    requires HasPrefix(name, "Ethernet")
    ensures !HasPrefix(name, "PortChannel")
  {
    assert name[..8][0] == 'E' && (|name| >= 11 ==> name[..11][0] == 'E');
  }

  // ---------- Tables ----------

  /** A key of an interface table: the bare name, or the name and an address */
  datatype InterfaceKey = InterfaceKey(table: InterfaceTable, name: string, address: Option<string>)

  /** VLAN_MEMBER maps (VLAN, port) to whether it is untagged. */
  datatype State = State(
    vlans: set<string>,
    vlanMembers: map<(string, string), bool>,
    portChannels: set<string>,
    pcMembers: set<(string, string)>,
    interfaces: set<InterfaceKey>)

  const EMPTY := State({}, map[], {}, {}, {})

  predicate InVlan(s: State, port: string) {
    exists m | m in s.vlanMembers :: m.1 == port
  }

  predicate UntaggedIn(s: State, port: string) {
    exists m | m in s.vlanMembers :: m.1 == port && s.vlanMembers[m]
  }

  predicate HasVlanMembers(s: State, vlan: string) {
    exists m | m in s.vlanMembers :: m.0 == vlan
  }

  predicate InPortChannel(s: State, port: string) {
    exists m | m in s.pcMembers :: m.1 == port
  }

  predicate HasMembers(s: State, pc: string) {
    exists m | m in s.pcMembers :: m.0 == pc
  }

  predicate HasInterfaceKeys(s: State, table: InterfaceTable, name: string) {
    exists k | k in s.interfaces :: k.table == table && k.name == name
  }

  predicate IsRouter(n: Names, s: State, name: string) {
    n.tableOf(name).Some? && InterfaceKey(n.tableOf(name).value, name, None) in s.interfaces
  }

  /** The addresses of an interface */
  function Addresses(s: State, table: InterfaceTable, name: string): set<string> {
    set k | k in s.interfaces && k.table == table && k.name == name && k.address.Some? :: k.address.value
  }

  // ---------- The commands ----------

  datatype Command =
    | AddVlan(vid: int, relay: bool)
    /** mapped: a VXLAN map names the VLAN */
    | DelVlan(vid: int, mapped: bool)
    | AddPortChannel(pc: string)
    | DelPortChannel(pc: string)
    /** suits: no mirror destination, no subinterface, same speed and MTU, default TPID, no ACL or PBH binding */
    | AddPcMember(pc: string, port: string, suits: bool)
    | DelPcMember(pc: string, port: string)
    | AddVlanMember(vid: int, port: string, untagged: bool, mirrored: bool)
    | DelVlanMember(vid: int, port: string)
    | AddAddress(name: string, address: string, valid: bool)
    /** routed: a static route is bound to the interface; kept: it is bound to a VRF or is IPv6 link local */
    | RemoveAddress(name: string, address: string, valid: bool, routed: bool, kept: bool)

  function VlanOf(vid: int): string {
    if vid < 0 then "" else VniMaps.VlanName(Digits(vid))
  }

  /** interface_name_is_valid */
  predicate IsInterfaceName(n: Names, s: State, name: string) {
    || name in n.ports || name in s.portChannels
    || InterfaceKey(VlanSubInterface, name, None) in s.interfaces
      || InterfaceKey(LoopbackInterface, name, None) in s.interfaces
  }

  /** Whether the command gets past its checks */
  predicate Can(n: Names, s: State, c: Command) {
    match c
    case AddVlan(vid, relay) => VniMaps.ValidVlan(vid) && vid != 1 && VlanOf(vid) !in s.vlans && !relay
    case DelVlan(vid, mapped) =>
      && VniMaps.ValidVlan(vid) && VlanOf(vid) in s.vlans && !HasInterfaceKeys(s, VlanInterface, VlanOf(vid))
      && !HasVlanMembers(s, VlanOf(vid)) && !mapped
    case AddPortChannel(pc) => IsPortChannelName(pc) && pc !in s.portChannels
    case DelPortChannel(pc) => IsPortChannelName(pc) && pc in s.portChannels && !InVlan(s, pc) && !HasMembers(s, pc)
    case AddPcMember(pc, port, suits) =>
      && suits && HasPrefix(port, "Ethernet") && IsInterfaceName(n, s, port) && IsPortChannelName(pc)
        && pc in s.portChannels
      && InterfaceKey(Interface, port, None) !in s.interfaces && !InVlan(s, port) && !InPortChannel(s, port)
    case DelPcMember(pc, port) =>
      IsPortChannelName(pc) && IsInterfaceName(n, s, port) && pc in s.portChannels && (pc, port) in s.pcMembers
    case AddVlanMember(vid, port, untagged, mirrored) =>
      && VniMaps.ValidVlan(vid) && VlanOf(vid) in s.vlans && !mirrored && (VlanOf(vid), port) !in s.vlanMembers
      && (if port in n.ports then InterfaceKey(Interface, port, None) !in s.interfaces && !InPortChannel(s, port)
          else port in s.portChannels && InterfaceKey(PortChannelInterface, port, None) !in s.interfaces)
      && !(UntaggedIn(s, port) && untagged)
    case DelVlanMember(vid, port) =>
      VniMaps.ValidVlan(vid) && VlanOf(vid) in s.vlans && (VlanOf(vid), port) in s.vlanMembers
    case AddAddress(name, _, valid) => !InVlan(s, name) && !InPortChannel(s, name) && valid && n.tableOf(name).Some?
    case RemoveAddress(name, address, valid, routed, _) =>
      valid && n.tableOf(name).Some? && !(Addresses(s, n.tableOf(name).value, name) == {address} && routed)
  }

  function WithAddress(s: State, table: InterfaceTable, name: string, address: string): State {
    s.(interfaces := s.interfaces + {InterfaceKey(table, name, None), InterfaceKey(table, name, Some(address))})
  }

  /** The address goes, and the interface with its last address. */
  function WithoutAddress(s: State, table: InterfaceTable, name: string, address: string, kept: bool): State {
    var t := s.(interfaces := s.interfaces - {InterfaceKey(table, name, Some(address))});
    if Addresses(t, table, name) == {} && !kept && table != VlanSubInterface
    then t.(interfaces := t.interfaces - {InterfaceKey(table, name, None)})
    else t
  }

  function After(n: Names, s: State, c: Command): State {
    if !Can(n, s, c) then s
    else
      match c
      case AddVlan(vid, _) => s.(vlans := s.vlans + {VlanOf(vid)})
      case DelVlan(vid, _) => s.(vlans := s.vlans - {VlanOf(vid)})
      case AddPortChannel(pc) => s.(portChannels := s.portChannels + {pc})
      case DelPortChannel(pc) => s.(portChannels := s.portChannels - {pc})
      case AddPcMember(pc, port, _) => s.(pcMembers := s.pcMembers + {(pc, port)})
      case DelPcMember(pc, port) => s.(pcMembers := s.pcMembers - {(pc, port)})
      case AddVlanMember(vid, port, untagged, _) => s.(vlanMembers := s.vlanMembers[(VlanOf(vid), port) := untagged])
      case DelVlanMember(vid, port) => s.(vlanMembers := s.vlanMembers - {(VlanOf(vid), port)})
      case AddAddress(name, address, _) => WithAddress(s, n.tableOf(name).value, name, address)
      case RemoveAddress(name, address, _, _, kept) => WithoutAddress(s, n.tableOf(name).value, name, address, kept)
  }

  function AfterAll(n: Names, s: State, commands: seq<Command>): State {
    if commands == [] then s else After(n, AfterAll(n, s, commands[..|commands| - 1]), commands[|commands| - 1])
  }

  // ---------- What must always hold ----------

  /** Interface keys are in the table of their name, and an address never stands without its interface. */
  predicate KeysFit(n: Names, s: State) {
    forall k | k in s.interfaces ::
      n.tableOf(k.name) == Some(k.table) && InterfaceKey(k.table, k.name, None) in s.interfaces
  }

  /** Memberships name what exists, and members of port channels are called Ethernet... */
  predicate ReferencesExist(n: Names, s: State) {
    && (forall m | m in s.vlanMembers :: m.0 in s.vlans && (m.1 in n.ports || m.1 in s.portChannels))
    && (forall m | m in s.pcMembers :: m.0 in s.portChannels && HasPrefix(m.1, "Ethernet"))
    && (forall pc | pc in s.portChannels :: IsPortChannelName(pc))
  }

  /** No VLAN member is a router interface or a member of a port channel, and no port of the
      INTERFACE table is both of these. */
  ghost predicate RolesApart(n: Names, s: State) {
    && (forall m | m in s.vlanMembers :: !IsRouter(n, s, m.1) && !InPortChannel(s, m.1))
    && (forall m | m in s.pcMembers && n.tableOf(m.1) == Some(Interface) :: !IsRouter(n, s, m.1))
  }

  /** One port channel at most, and untagged in one VLAN at most. */
  predicate OneOfEach(s: State) {
    && (forall m, k | m in s.pcMembers && k in s.pcMembers && m.1 == k.1 :: m == k)
    && (forall m, k | m in s.vlanMembers && k in s.vlanMembers && s.vlanMembers[m] && s.vlanMembers[k] && m.1 == k.1 ::
      m == k)
  }

  ghost predicate Invariant(n: Names, s: State) {
    KeysFit(n, s) && ReferencesExist(n, s) && RolesApart(n, s) && OneOfEach(s)
  }

  // ---------- Every command keeps the invariant ----------

  lemma AddPcMemberKeepsInvariant(n: Names, s: State, c: Command)
    requires Naming(n) && Invariant(n, s) && c.AddPcMember? && Can(n, s, c)
    ensures Invariant(n, After(n, s, c))
  {
    var t := After(n, s, c);
    forall m | m in t.vlanMembers ensures !InPortChannel(t, m.1) {
      assert !InPortChannel(s, m.1);
    }
    assert !exists m :: m in s.pcMembers && m.1 == c.port;
  }

  lemma JoinerIsFree(n: Names, s: State, c: Command)
    requires Naming(n) && Invariant(n, s) && c.AddVlanMember? && Can(n, s, c)
    ensures !InPortChannel(s, c.port) && !IsRouter(n, s, c.port)
  {
    if c.port !in n.ports {
      forall m | m in s.pcMembers ensures m.1 != c.port {
        NotBoth(m.1);
      }
    }
  }

  lemma AddVlanMemberKeepsRoles(n: Names, s: State, c: Command)
    requires Naming(n) && Invariant(n, s) && c.AddVlanMember? && Can(n, s, c)
    ensures RolesApart(n, After(n, s, c))
  {
    var t := After(n, s, c);
    JoinerIsFree(n, s, c);
    forall m | m in t.vlanMembers ensures !InPortChannel(t, m.1) && !IsRouter(n, t, m.1) {
      if m.1 != c.port {
        assert m in s.vlanMembers && !InPortChannel(s, m.1) && !IsRouter(n, s, m.1);
      }
    }
    forall m | m in t.pcMembers && n.tableOf(m.1) == Some(Interface) ensures !IsRouter(n, t, m.1) {
      assert !IsRouter(n, s, m.1);
    }
  }

  lemma AddVlanMemberKeepsInvariant(n: Names, s: State, c: Command)
    requires Naming(n) && Invariant(n, s) && c.AddVlanMember? && Can(n, s, c)
    ensures Invariant(n, After(n, s, c))
  {
    AddVlanMemberKeepsRoles(n, s, c);
    var t := After(n, s, c);
    assert ReferencesExist(n, t);
    forall m, k | m in t.vlanMembers && k in t.vlanMembers && t.vlanMembers[m] && t.vlanMembers[k] && m.1 == k.1
      ensures m == k
    {
      if m.1 == c.port && c.untagged {
        assert forall l | l in s.vlanMembers && l.1 == c.port :: !s.vlanMembers[l];
      }
    }
  }

  /** If only interface keys change, and no member becomes a router interface, the roles stay apart. */
  lemma RolesStayApart(n: Names, s: State, t: State)
    requires Invariant(n, s) && t == s.(interfaces := t.interfaces) && KeysFit(n, t)
    requires forall name | IsRouter(n, t, name) :: IsRouter(n, s, name) || (!InVlan(s, name) && !InPortChannel(s, name))
    ensures Invariant(n, t)
  {
    forall m | m in t.vlanMembers ensures !InPortChannel(t, m.1) && !IsRouter(n, t, m.1) {
      assert !InPortChannel(s, m.1) && !IsRouter(n, s, m.1);
    }
    forall m | m in t.pcMembers && n.tableOf(m.1) == Some(Interface) ensures !IsRouter(n, t, m.1) {
      assert !IsRouter(n, s, m.1);
    }
  }

  lemma AddAddressKeepsInvariant(n: Names, s: State, c: Command)
    requires Invariant(n, s) && c.AddAddress? && Can(n, s, c)
    ensures Invariant(n, After(n, s, c))
  {
    var t := WithAddress(s, n.tableOf(c.name).value, c.name, c.address);
    assert KeysFit(n, t);
    RolesStayApart(n, s, t);
  }

  lemma RemoveAddressKeepsKeys(n: Names, s: State, table: InterfaceTable, name: string, address: string, kept: bool)
    requires KeysFit(n, s)
    ensures KeysFit(n, WithoutAddress(s, table, name, address, kept))
  {
    var less := s.(interfaces := s.interfaces - {InterfaceKey(table, name, Some(address))});
    var t := WithoutAddress(s, table, name, address, kept);
    forall k | k in t.interfaces ensures InterfaceKey(k.table, k.name, None) in t.interfaces {
      if k.table == table && k.name == name && k.address.Some? {
        assert k.address.value in Addresses(less, table, name);
      }
    }
  }

  lemma RemoveAddressKeepsInvariant(n: Names, s: State, c: Command)
    requires Invariant(n, s) && c.RemoveAddress? && Can(n, s, c)
    ensures Invariant(n, After(n, s, c))
  {
    RemoveAddressKeepsKeys(n, s, n.tableOf(c.name).value, c.name, c.address, c.kept);
    RolesStayApart(n, s, After(n, s, c));
  }

  lemma DropKeepsInvariant(n: Names, s: State, c: Command)
    requires Invariant(n, s) && (c.DelPcMember? || c.DelVlanMember?) && Can(n, s, c)
    ensures Invariant(n, After(n, s, c))
  {
    var t := After(n, s, c);
    forall m | m in t.vlanMembers ensures !InPortChannel(t, m.1) && !IsRouter(n, t, m.1) {
      assert !InPortChannel(s, m.1) && !IsRouter(n, s, m.1);
    }
    forall m | m in t.pcMembers && n.tableOf(m.1) == Some(Interface) ensures !IsRouter(n, t, m.1) {
      assert !IsRouter(n, s, m.1);
    }
  }

  lemma GroupKeepsInvariant(n: Names, s: State, c: Command)
    requires Invariant(n, s) && (c.AddVlan? || c.DelVlan? || c.AddPortChannel? || c.DelPortChannel?) && Can(n, s, c)
    ensures Invariant(n, After(n, s, c))
  {
    var t := After(n, s, c);
    forall m | m in t.vlanMembers ensures !InPortChannel(t, m.1) && !IsRouter(n, t, m.1) {
      assert !InPortChannel(s, m.1) && !IsRouter(n, s, m.1);
    }
    forall m | m in t.pcMembers && n.tableOf(m.1) == Some(Interface) ensures !IsRouter(n, t, m.1) {
      assert !IsRouter(n, s, m.1);
    }
  }

  lemma CommandKeepsInvariant(n: Names, s: State, c: Command)
    requires Naming(n) && Invariant(n, s)
    ensures Invariant(n, After(n, s, c))
  {
    if Can(n, s, c) {
      match c
      case AddPcMember(_, _, _) => AddPcMemberKeepsInvariant(n, s, c);
      case AddVlanMember(_, _, _, _) => AddVlanMemberKeepsInvariant(n, s, c);
      case AddAddress(_, _, _) => AddAddressKeepsInvariant(n, s, c);
      case RemoveAddress(_, _, _, _, _) => RemoveAddressKeepsInvariant(n, s, c);
      case DelPcMember(_, _) => DropKeepsInvariant(n, s, c);
      case DelVlanMember(_, _) => DropKeepsInvariant(n, s, c);
      case AddVlan(_, _) => GroupKeepsInvariant(n, s, c);
      case DelVlan(_, _) => GroupKeepsInvariant(n, s, c);
      case AddPortChannel(_) => GroupKeepsInvariant(n, s, c);
      case DelPortChannel(_) => GroupKeepsInvariant(n, s, c);
    }
  }

  /** In every reachable state each port has one role. */
  lemma {:induction false} RunKeepsInvariant(n: Names, commands: seq<Command>)
    requires Naming(n)
    ensures Invariant(n, AfterAll(n, EMPTY, commands))
  {
    if commands != [] {
      RunKeepsInvariant(n, commands[..|commands| - 1]);
      CommandKeepsInvariant(n, AfterAll(n, EMPTY, commands[..|commands| - 1]), commands[|commands| - 1]);
    }
  }

  /** An Ethernet port: router interface, VLAN member or port channel member, but not two of them. */
  lemma OneRole(n: Names, commands: seq<Command>, port: string)
    requires Naming(n) && port in n.ports
    ensures var s := AfterAll(n, EMPTY, commands); var isRouter := exists k | k in s.interfaces :: k.name == port;
      !(isRouter && InVlan(s, port)) && !(isRouter && InPortChannel(s, port))
        && !(InVlan(s, port) && InPortChannel(s, port))
  {
    RunKeepsInvariant(n, commands);
    var s := AfterAll(n, EMPTY, commands);
    if k :| k in s.interfaces && k.name == port {
      assert IsRouter(n, s, port);
    }
  }

  /** A name accepted into a port channel is a router interface already exactly when it is a subinterface. */
  lemma RouterJoinsIff(n: Names, s: State, pc: string, port: string, suits: bool)
    requires Naming(n) && Invariant(n, s) && Can(n, s, AddPcMember(pc, port, suits))
    ensures IsRouter(n, s, port) <==> port !in n.ports
  {
    if port !in n.ports {
      NotBoth(port);
      var isSub := InterfaceKey(VlanSubInterface, port, None) in s.interfaces;
      var k := if isSub then VlanSubInterface else LoopbackInterface;
      assert InterfaceKey(k, port, None) in s.interfaces;
    }
  }

  /** Two commands reach a state in which a subinterface with an address may join a port channel. */
  lemma SubinterfaceJoins(n: Names, pc: string, sub: string, address: string)
    requires IsPortChannelName(pc) && HasPrefix(sub, "Ethernet")
    requires sub !in n.ports && n.tableOf(sub) == Some(VlanSubInterface)
    ensures
      var s := AfterAll(n, EMPTY, [AddPortChannel(pc), AddAddress(sub, address, true)]);
      Can(n, s, AddPcMember(pc, sub, true)) && IsRouter(n, s, sub)
  {
    var first, both := [AddPortChannel(pc)], [AddPortChannel(pc), AddAddress(sub, address, true)];
    var none: seq<Command> := [];
    assert first[..|first| - 1] == none && both[..|both| - 1] == first;
    var s1 := AfterAll(n, EMPTY, first);
    assert AfterAll(n, EMPTY, none) == EMPTY;
    assert s1 == After(n, EMPTY, AddPortChannel(pc));
    assert {} + {pc} == {pc};
    assert s1 == State({}, map[], {pc}, {}, {});
    assert AfterAll(n, EMPTY, both) == WithAddress(s1, VlanSubInterface, sub, address);
  }

  // ---------- What is refused, and what is done ----------

  /** An Ethernet name joins a port channel unless it does not suit, is not known, is there already, or would break
      what must always hold; and nothing else changes.
   */
  lemma AddPcMemberIff(n: Names, s: State, pc: string, port: string, suits: bool)
    requires Naming(n) && Invariant(n, s)
    ensures
      var t := s.(pcMembers := s.pcMembers + {(pc, port)});
      && (Can(n, s, AddPcMember(pc, port, suits)) <==>
            && suits && IsInterfaceName(n, s, port) && (pc, port) !in s.pcMembers && Invariant(n, t))
      && After(n, s, AddPcMember(pc, port, suits)) == if Can(n, s, AddPcMember(pc, port, suits)) then t else s
  {
    var c := AddPcMember(pc, port, suits);
    var t := s.(pcMembers := s.pcMembers + {(pc, port)});
    if Can(n, s, c) {
      CommandKeepsInvariant(n, s, c);
    } else if (pc, port) !in s.pcMembers && Invariant(n, t) {
      assert (pc, port) in t.pcMembers;
    }
  }

  /** A port or port channel joins a VLAN unless it is there already, or that would break what must always hold. */
  lemma AddVlanMemberIff(n: Names, s: State, vid: int, port: string, untagged: bool, mirrored: bool)
    requires Naming(n) && Invariant(n, s)
    ensures
      var c := AddVlanMember(vid, port, untagged, mirrored);
      var m := (VlanOf(vid), port);
      var t := s.(vlanMembers := s.vlanMembers[m := untagged]);
      && (Can(n, s, c) <==> 1 <= vid <= 4094 && !mirrored && m !in s.vlanMembers && Invariant(n, t))
      && After(n, s, c) == if Can(n, s, c) then t else s
  {
    var c := AddVlanMember(vid, port, untagged, mirrored);
    var m := (VlanOf(vid), port);
    var t := s.(vlanMembers := s.vlanMembers[m := untagged]);
    if Can(n, s, c) { AddVlanMemberKeepsInvariant(n, s, c); }
    if m !in s.vlanMembers && Invariant(n, t) { JoinedVlanFits(n, s, m.0, port, untagged); }
  }

  lemma JoinedVlanFits(n: Names, s: State, vlan: string, port: string, untagged: bool)
    requires (vlan, port) !in s.vlanMembers && Invariant(n, s.(vlanMembers := s.vlanMembers[(vlan, port) := untagged]))
    ensures vlan in s.vlans && (port in n.ports || port in s.portChannels)
    ensures !IsRouter(n, s, port) && !InPortChannel(s, port) && !(UntaggedIn(s, port) && untagged)
  {
    var m := (vlan, port);
    var t := s.(vlanMembers := s.vlanMembers[m := untagged]);
    assert m in t.vlanMembers && !IsRouter(n, t, port) && !InPortChannel(t, port);
  }

  /** An address is refused only for its text or name, for a port channel member, or because its interface would
      break what must always hold.
   */
  lemma AddAddressIff(n: Names, s: State, name: string, address: string, valid: bool)
    requires Naming(n) && Invariant(n, s) && n.tableOf(name).Some?
    ensures
      var c := AddAddress(name, address, valid);
      var table := n.tableOf(name).value;
      var t := s.(interfaces := s.interfaces
                    + {InterfaceKey(table, name, None), InterfaceKey(table, name, Some(address))});
      && (Can(n, s, c) <==> valid && !InPortChannel(s, name) && Invariant(n, t))
      && After(n, s, c) == if Can(n, s, c) then t else s
  {
    var c := AddAddress(name, address, valid);
    var table := n.tableOf(name).value;
    var t := WithAddress(s, table, name, address);
    if Can(n, s, c) {
      CommandKeepsInvariant(n, s, c);
    }
  }

  /** An address just added to a name without interface keys can be removed, and that restores the tables; a
      subinterface keeps its own key.
   */
  lemma AddressUndone(n: Names, s: State, name: string, address: string)
    requires Naming(n) && Invariant(n, s) && Can(n, s, AddAddress(name, address, true))
    requires forall k | k in s.interfaces :: k.name != name
    ensures
      var added := After(n, s, AddAddress(name, address, true));
      var table := n.tableOf(name).value;
      After(n, added, RemoveAddress(name, address, true, false, false)) ==
        if table == VlanSubInterface then s.(interfaces := s.interfaces + {InterfaceKey(table, name, None)}) else s
  {
    var table := n.tableOf(name).value;
    var bare, full := InterfaceKey(table, name, None), InterfaceKey(table, name, Some(address));
    var added := WithAddress(s, table, name, address);
    var t := added.(interfaces := added.interfaces - {full});
    assert t.interfaces == s.interfaces + {bare};
    assert Addresses(t, table, name) == {};
    assert t.interfaces - {bare} == s.interfaces;
  }

  /** The interface stays while it has another address. */
  lemma OtherAddressStays(n: Names, s: State, c: Command, k: InterfaceKey)
    requires c.RemoveAddress? && k in s.interfaces && k.address.Some?
    requires k.name != c.name || k.address != Some(c.address)
    requires InterfaceKey(k.table, k.name, None) in s.interfaces
    ensures k in After(n, s, c).interfaces && InterfaceKey(k.table, k.name, None) in After(n, s, c).interfaces
  {
    if Can(n, s, c) {
      var table := n.tableOf(c.name).value;
      var t := s.(interfaces := s.interfaces - {InterfaceKey(table, c.name, Some(c.address))});
      assert k in t.interfaces;
      if k.table == table && k.name == c.name { assert k.address.value in Addresses(t, table, c.name); }
    }
  }

  /** A VLAN that is not mapped and has no interface keys stays only for its members. */
  lemma DelVlanIff(n: Names, s: State, vid: int)
    requires Naming(n) && Invariant(n, s) && 1 <= vid <= 4094
    ensures
      var c := DelVlan(vid, false);
      var t := s.(vlans := s.vlans - {VlanOf(vid)});
      && (Can(n, s, c) <==>
            && VlanOf(vid) in s.vlans && Invariant(n, t)
            && forall k | k in s.interfaces :: k.table != VlanInterface || k.name != VlanOf(vid))
      && After(n, s, c) == if Can(n, s, c) then t else s
  {
    if Can(n, s, DelVlan(vid, false)) { CommandKeepsInvariant(n, s, DelVlan(vid, false)); }
    if HasVlanMembers(s, VlanOf(vid)) {
      var m :| m in s.vlanMembers && m.0 == VlanOf(vid);
      assert !ReferencesExist(n, s.(vlans := s.vlans - {VlanOf(vid)}));
    }
  }

  /** A port channel stays only for its members and its VLAN. */
  lemma DelPortChannelIff(n: Names, s: State, pc: string)
    requires Naming(n) && Invariant(n, s)
    ensures
      var t := s.(portChannels := s.portChannels - {pc});
      && (Can(n, s, DelPortChannel(pc)) <==> pc in s.portChannels && Invariant(n, t))
      && After(n, s, DelPortChannel(pc)) == if Can(n, s, DelPortChannel(pc)) then t else s
  {
    var t := s.(portChannels := s.portChannels - {pc});
    if Can(n, s, DelPortChannel(pc)) { CommandKeepsInvariant(n, s, DelPortChannel(pc)); }
    if pc in s.portChannels && InVlan(s, pc) {
      var m :| m in s.vlanMembers && m.1 == pc;
      if pc in n.ports { NotBoth(pc); }
      assert m in t.vlanMembers && !ReferencesExist(n, t);
    }
    if HasMembers(s, pc) {
      var m :| m in s.pcMembers && m.0 == pc;
      assert m in t.pcMembers && !ReferencesExist(n, t);
    }
  }

  /** A port channel member just added can be deleted, and that restores the tables. */
  lemma PcMemberUndone(n: Names, s: State, pc: string, port: string)
    requires Can(n, s, AddPcMember(pc, port, true))
    ensures
      var added := After(n, s, AddPcMember(pc, port, true));
      Can(n, added, DelPcMember(pc, port)) && After(n, added, DelPcMember(pc, port)) == s
  {
    assert (pc, port) !in s.pcMembers;
    assert s.pcMembers + {(pc, port)} - {(pc, port)} == s.pcMembers;
  }

  /** A VLAN member just added can be deleted, and that restores the tables. */
  lemma VlanMemberUndone(n: Names, s: State, vid: int, port: string, untagged: bool)
    requires Can(n, s, AddVlanMember(vid, port, untagged, false))
    ensures
      var added := After(n, s, AddVlanMember(vid, port, untagged, false));
      Can(n, added, DelVlanMember(vid, port)) && After(n, added, DelVlanMember(vid, port)) == s
  {
    assert s.vlanMembers[(VlanOf(vid), port) := untagged] - {(VlanOf(vid), port)} == s.vlanMembers;
  }

  /** A new VLAN and a new port channel with a valid name are always accepted, and deleted again leave no trace. */
  lemma GroupUndone(n: Names, s: State, vid: int, pc: string)
    requires Naming(n) && Invariant(n, s) && 2 <= vid <= 4094
    ensures
      VlanOf(vid) !in s.vlans && (forall k | k in s.interfaces :: k.name != VlanOf(vid)) ==>
        var added := After(n, s, AddVlan(vid, false));
        && Can(n, s, AddVlan(vid, false)) && added == s.(vlans := s.vlans + {"Vlan" + Digits(vid)})
        && After(n, added, DelVlan(vid, false)) == s
    ensures
      12 <= |pc| <= 15 && pc[..11] == "PortChannel" && AllDigits(pc[11..]) && Value(pc[11..]) <= 9999
      && pc !in s.portChannels ==>
        var added := After(n, s, AddPortChannel(pc));
        && Can(n, s, AddPortChannel(pc)) && added == s.(portChannels := s.portChannels + {pc})
        && After(n, added, DelPortChannel(pc)) == s
  {
  }

  // ---------- The commands as they run ----------

  class PortConfig {
    const names: Names
    /** VLAN, VLAN_MEMBER, PORTCHANNEL, PORTCHANNEL_MEMBER and the interface tables */
    var vlans: set<string>
    var vlanMembers: map<(string, string), bool>
    var portChannels: set<string>
    var pcMembers: set<(string, string)>
    var interfaces: set<InterfaceKey>

    constructor (names: Names)
      ensures this.names == names && Tables() == EMPTY
    {
      this.names := names;
      vlans, vlanMembers, portChannels, pcMembers, interfaces := {}, map[], {}, {}, {};
    }

    function Tables(): State
      reads this
    {
      State(vlans, vlanMembers, portChannels, pcMembers, interfaces)
    }

    /** add_vlan */
    method AddVlanCommand(vid: int, relay: bool) returns (ok: bool)
      modifies this`vlans
      ensures ok <==> Can(names, old(Tables()), AddVlan(vid, relay))
      ensures Tables() == After(names, old(Tables()), AddVlan(vid, relay))
    {
      if !VniMaps.ValidVlan(vid) || vid == 1 || VlanOf(vid) in vlans || relay {
        return false;
      }
      vlans := vlans + {VlanOf(vid)};
      ok := true;
    }

    /** del_vlan */
    method DelVlanCommand(vid: int, mapped: bool) returns (ok: bool)
      modifies this`vlans
      ensures ok <==> Can(names, old(Tables()), DelVlan(vid, mapped))
      ensures Tables() == After(names, old(Tables()), DelVlan(vid, mapped))
    {
      if !VniMaps.ValidVlan(vid) || VlanOf(vid) !in vlans {
        return false;
      }
      var vlan := VlanOf(vid);
      var addressed := HasKeys(VlanInterface, vlan);
      if addressed {
        return false;
      }
      var todo := vlanMembers.Keys;
      while todo != {}
        invariant todo <= vlanMembers.Keys && forall m | m in vlanMembers && m !in todo :: m.0 != vlan
      {
        var m :| m in todo;
        if m.0 == vlan {
          return false;
        }
        todo := todo - {m};
      }
      if mapped {
        return false;
      }
      vlans := vlans - {vlan};
      ok := true;
    }

    /** The scan of an interface table for a name */
    method HasKeys(table: InterfaceTable, name: string) returns (found: bool)
      ensures found <==> HasInterfaceKeys(Tables(), table, name)
    {
      var todo := interfaces;
      while todo != {}
        invariant todo <= interfaces && forall k | k in interfaces && k !in todo ::
          !(k.table == table && k.name == name)
      {
        var k :| k in todo;
        if k.table == table && k.name == name {
          return true;
        }
        todo := todo - {k};
      }
      found := false;
    }

    /** interface_is_in_vlan */
    method IsInVlan(port: string) returns (found: bool)
      ensures found <==> InVlan(Tables(), port)
    {
      var todo := vlanMembers.Keys;
      while todo != {}
        invariant todo <= vlanMembers.Keys && forall m | m in vlanMembers && m !in todo :: m.1 != port
      {
        var m :| m in todo;
        if m.1 == port {
          return true;
        }
        todo := todo - {m};
      }
      found := false;
    }

    /** interface_is_untagged_member */
    method IsUntagged(port: string) returns (found: bool)
      ensures found <==> UntaggedIn(Tables(), port)
    {
      var todo := vlanMembers.Keys;
      while todo != {}
        invariant todo <= vlanMembers.Keys && forall m | m in vlanMembers && m !in todo ::
          !(m.1 == port && vlanMembers[m])
      {
        var m :| m in todo;
        if m.1 == port && vlanMembers[m] {
          return true;
        }
        todo := todo - {m};
      }
      found := false;
    }

    /** interface_is_in_portchannel */
    method IsInPortChannel(port: string) returns (found: bool)
      ensures found <==> InPortChannel(Tables(), port)
    {
      var todo := pcMembers;
      while todo != {}
        invariant todo <= pcMembers && forall m | m in pcMembers && m !in todo :: m.1 != port
      {
        var m :| m in todo;
        if m.1 == port {
          return true;
        }
        todo := todo - {m};
      }
      found := false;
    }

    /** add_portchannel */
    method AddPortChannelCommand(pc: string) returns (ok: bool)
      modifies this`portChannels
      ensures ok <==> Can(names, old(Tables()), AddPortChannel(pc))
      ensures Tables() == After(names, old(Tables()), AddPortChannel(pc))
    {
      if !IsPortChannelName(pc) || pc in portChannels {
        return false;
      }
      portChannels := portChannels + {pc};
      ok := true;
    }

    /** remove_portchannel */
    method DelPortChannelCommand(pc: string) returns (ok: bool)
      modifies this`portChannels
      ensures ok <==> Can(names, old(Tables()), DelPortChannel(pc))
      ensures Tables() == After(names, old(Tables()), DelPortChannel(pc))
    {
      if !IsPortChannelName(pc) || pc !in portChannels {
        return false;
      }
      var inVlan := IsInVlan(pc);
      if inVlan {
        return false;
      }
      var todo := pcMembers;
      while todo != {}
        invariant todo <= pcMembers && forall m | m in pcMembers && m !in todo :: m.0 != pc
      {
        var m :| m in todo;
        if m.0 == pc {
          return false;
        }
        todo := todo - {m};
      }
      portChannels := portChannels - {pc};
      ok := true;
    }

    /** add_portchannel_member */
    method AddPcMemberCommand(pc: string, port: string, suits: bool) returns (ok: bool)
      modifies this`pcMembers
      ensures ok <==> Can(names, old(Tables()), AddPcMember(pc, port, suits))
      ensures Tables() == After(names, old(Tables()), AddPcMember(pc, port, suits))
    {
      if !HasPrefix(port, "Ethernet") || !IsInterfaceName(names, Tables(), port) || !IsPortChannelName(pc)
        || pc !in portChannels {
        return false;
      }
      if InterfaceKey(Interface, port, None) in interfaces {
        return false;
      }
      var inVlan := IsInVlan(port);
      if inVlan {
        return false;
      }
      var inPortChannel := IsInPortChannel(port);
      if inPortChannel || !suits {
        return false;
      }
      pcMembers := pcMembers + {(pc, port)};
      ok := true;
    }

    /** del_portchannel_member */
    method DelPcMemberCommand(pc: string, port: string) returns (ok: bool)
      modifies this`pcMembers
      ensures ok <==> Can(names, old(Tables()), DelPcMember(pc, port))
      ensures Tables() == After(names, old(Tables()), DelPcMember(pc, port))
    {
      if !IsPortChannelName(pc) || !IsInterfaceName(names, Tables(), port) || pc !in portChannels
        || (pc, port) !in pcMembers {
        return false;
      }
      pcMembers := pcMembers - {(pc, port)};
      ok := true;
    }

    /** add_vlan_member */
    method AddVlanMemberCommand(vid: int, port: string, untagged: bool, mirrored: bool) returns (ok: bool)
      modifies this`vlanMembers
      ensures ok <==> Can(names, old(Tables()), AddVlanMember(vid, port, untagged, mirrored))
      ensures Tables() == After(names, old(Tables()), AddVlanMember(vid, port, untagged, mirrored))
    {
      if !VniMaps.ValidVlan(vid) || VlanOf(vid) !in vlans || mirrored || (VlanOf(vid), port) in vlanMembers {
        return false;
      }
      var isPort := port in names.ports;
      if !isPort && port !in portChannels {
        return false;
      }
      if InterfaceKey(if isPort then Interface else PortChannelInterface, port, None) in interfaces {
        return false;
      }
      var inPortChannel := IsInPortChannel(port);
      if isPort && inPortChannel {
        return false;
      }
      var alreadyUntagged := IsUntagged(port);
      if alreadyUntagged && untagged {
        return false;
      }
      vlanMembers := vlanMembers[(VlanOf(vid), port) := untagged];
      ok := true;
    }

    /** del_vlan_member */
    method DelVlanMemberCommand(vid: int, port: string) returns (ok: bool)
      modifies this`vlanMembers
      ensures ok <==> Can(names, old(Tables()), DelVlanMember(vid, port))
      ensures Tables() == After(names, old(Tables()), DelVlanMember(vid, port))
    {
      if !VniMaps.ValidVlan(vid) || VlanOf(vid) !in vlans || (VlanOf(vid), port) !in vlanMembers {
        return false;
      }
      vlanMembers := vlanMembers - {(VlanOf(vid), port)};
      ok := true;
    }

    /** config interface ip add */
    method AddAddressCommand(name: string, address: string, valid: bool) returns (ok: bool)
      modifies this`interfaces
      ensures ok <==> Can(names, old(Tables()), AddAddress(name, address, valid))
      ensures Tables() == After(names, old(Tables()), AddAddress(name, address, valid))
    {
      var inVlan := IsInVlan(name);
      if inVlan {
        return false;
      }
      var inPortChannel := IsInPortChannel(name);
      if inPortChannel || !valid || names.tableOf(name).None? {
        return false;
      }
      var table := names.tableOf(name).value;
      if InterfaceKey(table, name, None) !in interfaces {
        interfaces := interfaces + {InterfaceKey(table, name, None)};
      }
      interfaces := interfaces + {InterfaceKey(table, name, Some(address))};
      ok := true;
    }

    /** get_interface_ipaddresses */
    method InterfaceAddresses(table: InterfaceTable, name: string) returns (addresses: set<string>)
      ensures addresses == Addresses(Tables(), table, name)
    {
      addresses := {};
      var todo := interfaces;
      while todo != {}
        invariant todo <= interfaces
        invariant addresses == Addresses(Tables().(interfaces := interfaces - todo), table, name)
      {
        var k :| k in todo;
        OneMoreKey(Tables(), todo, k, table, name);
        if k.table == table && k.name == name && k.address.Some? {
          addresses := addresses + {k.address.value};
        }
        todo := todo - {k};
      }
      assert interfaces - todo == interfaces;
    }

    /** config interface ip remove */
    method RemoveAddressCommand(name: string, address: string, valid: bool, routed: bool, kept: bool) returns (ok: bool)
      modifies this`interfaces
      ensures ok <==> Can(names, old(Tables()), RemoveAddress(name, address, valid, routed, kept))
      ensures Tables() == After(names, old(Tables()), RemoveAddress(name, address, valid, routed, kept))
    {
      if !valid || names.tableOf(name).None? {
        return false;
      }
      var table := names.tableOf(name).value;
      var addresses := InterfaceAddresses(table, name);
      if addresses == {address} && routed {
        return false;
      }
      interfaces := interfaces - {InterfaceKey(table, name, Some(address))};
      addresses := InterfaceAddresses(table, name);
      if addresses == {} && !kept && table != VlanSubInterface {
        interfaces := interfaces - {InterfaceKey(table, name, None)};
      }
      ok := true;
    }
  }

  lemma OneMoreKey(s: State, todo: set<InterfaceKey>, k: InterfaceKey, table: InterfaceTable, name: string)
    requires k in todo && todo <= s.interfaces
    ensures Addresses(s.(interfaces := s.interfaces - (todo - {k})), table, name) ==
      Addresses(s.(interfaces := s.interfaces - todo), table, name)
      + if k.table == table && k.name == name && k.address.Some? then {k.address.value} else {}
  {
    assert s.interfaces - (todo - {k}) == (s.interfaces - todo) + {k};
    AddressesPlus(s.interfaces - todo, s, k, table, name);
  }

  lemma AddressesPlus(keys: set<InterfaceKey>, s: State, k: InterfaceKey, table: InterfaceTable, name: string)
    ensures Addresses(s.(interfaces := keys + {k}), table, name) ==
      Addresses(s.(interfaces := keys), table, name)
      + if k.table == table && k.name == name && k.address.Some? then {k.address.value} else {}
  {
    var before, after :=
      Addresses(s.(interfaces := keys), table, name), Addresses(s.(interfaces := keys + {k}), table, name);
    forall a | a in before ensures a in after {
      var l :| l in keys && l.table == table && l.name == name && l.address == Some(a);
      assert l in keys + {k};
    }
    forall a | a in after ensures a in before || (k.table == table && k.name == name && k.address == Some(a)) {
      var l :| l in keys + {k} && l.table == table && l.name == name && l.address == Some(a);
    }
    if k.table == table && k.name == name && k.address.Some? {
      assert k in keys + {k};
    }
  }
}
