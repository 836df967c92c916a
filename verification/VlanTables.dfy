/** One VLAN table for the mappings of VniMaps and the members and interfaces of PortRoles: each of del_vlan's
    checks looks at the tables of both.
 */
module VlanTables {
  import opened JsonTree
  import opened Decimal
  import Maps = VniMaps
  import Ports = PortRoles

  datatype State = State(maps: Maps.State, ports: Ports.State)

  const EMPTY := State(Maps.EMPTY, Ports.EMPTY)

  type MapCommand = c: Maps.Command | !c.AddVlan? && !c.DelVlan? witness Maps.DelVrfVni("")
  type PortCommand = c: Ports.Command | !c.AddVlan? && !c.DelVlan? witness Ports.DelPortChannel("")

  datatype Command =
    | AddVlan(vid: int, relay: bool)
    | DelVlan(vid: int)
    | OfMaps(m: MapCommand)
    | OfPorts(p: PortCommand)

  predicate Used(s: State, vid: int) {
    Ports.HasInterfaceKeys(s.ports, Ports.VlanInterface, Ports.VlanOf(vid))
    || Ports.HasVlanMembers(s.ports, Ports.VlanOf(vid))
  }

  predicate Mapped(s: State, vid: int) {
    Maps.VlanTaken(s.maps.maps, Ports.VlanOf(vid))
  }

  /** Both machines take the step, each with what it asks of the other's tables. */
  function After(n: Ports.Names, s: State, c: Command): State {
    match c
    case AddVlan(vid, relay) =>
      State(Maps.After(s.maps, Maps.AddVlan(vid, relay)), Ports.After(n, s.ports, Ports.AddVlan(vid, relay)))
    case DelVlan(vid) =>
      State(Maps.After(s.maps, Maps.DelVlan(vid, Used(s, vid))),
            Ports.After(n, s.ports, Ports.DelVlan(vid, Mapped(s, vid))))
    case OfMaps(m) => s.(maps := Maps.After(s.maps, m))
    case OfPorts(p) => s.(ports := Ports.After(n, s.ports, p))
  }

  function AfterAll(n: Ports.Names, s: State, commands: seq<Command>): State {
    if commands == [] then s else After(n, AfterAll(n, s, commands[..|commands| - 1]), commands[|commands| - 1])
  }

  /** Both have the same VLANs. */
  ghost predicate Invariant(n: Ports.Names, s: State) {
    && Maps.Invariant(s.maps) && Ports.Invariant(n, s.ports)
    && s.maps.vlans == s.ports.vlans
  }

  lemma {:induction false} FoldKeepsVlans(s: Maps.State, tunnel: string, vlanStart: nat, vniStart: nat, k: nat)
    ensures Maps.Fold(s, tunnel, vlanStart, vniStart, k).vlans == s.vlans
  {
    if k > 0 { FoldKeepsVlans(s, tunnel, vlanStart, vniStart, k - 1); }
  }

  lemma VlanKeepsInvariant(n: Ports.Names, s: State, c: Command)
    requires Ports.Naming(n) && Invariant(n, s) && (c.AddVlan? || c.DelVlan?)
    ensures Invariant(n, After(n, s, c))
  {
    var m := if c.AddVlan? then Maps.AddVlan(c.vid, c.relay) else Maps.DelVlan(c.vid, Used(s, c.vid));
    var p := if c.AddVlan? then Ports.AddVlan(c.vid, c.relay) else Ports.DelVlan(c.vid, Mapped(s, c.vid));
    Maps.CommandKeepsInvariant(s.maps, m);
    Ports.CommandKeepsInvariant(n, s.ports, p);
    assert Maps.Can(s.maps, m) <==> Ports.Can(n, s.ports, p);
  }

  lemma OthersKeepVlans(n: Ports.Names, s: State, m: MapCommand, p: PortCommand)
    ensures Maps.After(s.maps, m).vlans == s.maps.vlans && Ports.After(n, s.ports, p).vlans == s.ports.vlans
  {
    if m.AddMapRange? && Maps.Can(s.maps, m) {
      FoldKeepsVlans(s.maps, m.tunnel, m.vlanStart, m.vniStart, m.vlanEnd + 1 - m.vlanStart);
    }
  }

  lemma CommandKeepsInvariant(n: Ports.Names, s: State, c: Command)
    requires Ports.Naming(n) && Invariant(n, s)
    ensures Invariant(n, After(n, s, c))
  {
    match c
    case OfMaps(m) =>
      Maps.CommandKeepsInvariant(s.maps, m);
      OthersKeepVlans(n, s, m, Ports.DelPortChannel(""));
    case OfPorts(p) =>
      Ports.CommandKeepsInvariant(n, s.ports, p);
      OthersKeepVlans(n, s, Maps.DelVrfVni(""), p);
    case _ => VlanKeepsInvariant(n, s, c);
  }

  /** In every state that any run reaches, the two halves agree about the VLANs. */
  lemma {:induction false} RunKeepsInvariant(n: Ports.Names, commands: seq<Command>)
    requires Ports.Naming(n)
    ensures Invariant(n, AfterAll(n, EMPTY, commands))
  {
    if commands != [] {
      var most := commands[..|commands| - 1];
      RunKeepsInvariant(n, most);
      CommandKeepsInvariant(n, AfterAll(n, EMPTY, most), commands[|commands| - 1]);
    }
  }

  /** In every reachable state all members and mappings name a VLAN of the one table, and so does every live VRF
      through its VNI.
   */
  lemma NothingDangles(n: Ports.Names, commands: seq<Command>)
    requires Ports.Naming(n)
    ensures
      var s := AfterAll(n, EMPTY, commands);
      && (forall m | m in s.ports.vlanMembers :: m.0 in s.maps.vlans)
      && (forall k | k in s.maps.maps :: s.maps.maps[k].vlan in s.ports.vlans)
      && (forall v | Maps.HasLiveVni(s.maps.vrfs, v) ::
            exists k | k in s.maps.maps ::
              Maps.HasVni(s.maps.maps[k], s.maps.vrfs[v].value) && s.maps.maps[k].vlan in s.ports.vlans)
  {
    RunKeepsInvariant(n, commands);
    var s := AfterAll(n, EMPTY, commands);
    forall k | k in s.maps.maps ensures s.maps.maps[k].vlan in s.ports.vlans {
      assert Maps.WellFormed(s.maps, k);
    }
    forall v | Maps.HasLiveVni(s.maps.vrfs, v)
      ensures exists k | k in s.maps.maps ::
        Maps.HasVni(s.maps.maps[k], s.maps.vrfs[v].value) && s.maps.maps[k].vlan in s.ports.vlans
    {
      var k :| k in s.maps.maps && Maps.HasVni(s.maps.maps[k], s.maps.vrfs[v].value);
      assert Maps.WellFormed(s.maps, k);
    }
  }

  /** From every reachable state, a VLAN goes from both halves at once, exactly if no interface key, no member and
      no mapping names it; and every other VLAN stays.
   */
  lemma VlanGoesIff(n: Ports.Names, commands: seq<Command>, vid: int)
    requires Ports.Naming(n) && Maps.ValidVlan(vid)
    ensures
      var s, name := AfterAll(n, EMPTY, commands), Ports.VlanOf(vid);
      var t := After(n, s, DelVlan(vid));
      && t.maps.vlans == t.ports.vlans
      && (name in s.ports.vlans ==> (name !in t.ports.vlans <==> !Used(s, vid) && !Mapped(s, vid)))
      && (forall other | other != name :: other in t.ports.vlans <==> other in s.ports.vlans)
  {
    RunKeepsInvariant(n, commands);
    CommandKeepsInvariant(n, AfterAll(n, EMPTY, commands), DelVlan(vid));
  }
}
