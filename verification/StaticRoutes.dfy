/** Static routes: the next hops of a prefix are kept in five comma-joined columns. */
module StaticRoutes {
  import opened JsonTree
  import opened Columns

  /** One next hop of a prefix. */
  datatype Hop = Hop(nexthop: string, vrf: string, ifname: string, distance: string, blackhole: string)

  /** The entry of a prefix in STATIC_ROUTE, with all of its five columns. */
  datatype Entry = Entry(nexthop: string, nexthopVrf: string, ifname: string, distance: string, blackhole: string)

  datatype Column = Nexthop | NexthopVrf | Ifname | Distance | Blackhole

  function Text(e: Entry, column: Column): string {
    match column
    case Nexthop => e.nexthop
    case NexthopVrf => e.nexthopVrf
    case Ifname => e.ifname
    case Distance => e.distance
    case Blackhole => e.blackhole
  }

  function Field(h: Hop, column: Column): string {
    match column
    case Nexthop => h.nexthop
    case NexthopVrf => h.vrf
    case Ifname => h.ifname
    case Distance => h.distance
    case Blackhole => h.blackhole
  }

  /** One column of a list of next hops. */
  function Items(hops: seq<Hop>, column: Column): (items: seq<string>)
    ensures |items| == |hops|
  {
    seq(|hops|, i requires 0 <= i < |hops| => Field(hops[i], column))
  }

  /** The entry that keeps these next hops. */
  function Joined(hops: seq<Hop>): Entry {
    Entry(Join(Items(hops, Nexthop)), Join(Items(hops, NexthopVrf)), Join(Items(hops, Ifname)),
          Join(Items(hops, Distance)), Join(Items(hops, Blackhole)))
  }

  /** A next hop as the commands make it: no field holds a comma, and it has a gateway or an interface. */
  predicate Sound(h: Hop) {
    && NoComma(h.nexthop) && NoComma(h.vrf) && NoComma(h.ifname) && NoComma(h.distance) && NoComma(h.blackhole)
    && (h.nexthop != "" || h.ifname != "")
  }

  /** What the CLI gives after the prefix. */
  datatype Target =
    | Gateway(nexthop: string)
    | GatewayInVrf(vrf: string, nexthop: string)
    | Device(ifname: string)
    | Unspecified

  function NexthopText(t: Target): Option<string> {
    match t
    case Gateway(n) => Some(n)
    case GatewayInVrf(_, n) => Some(n)
    case _ => None
  }

  /** The gateway to look for, empty if the target names none */
  function Wanted(t: Target): string {
    if NexthopText(t).Some? then NexthopText(t).value else ""
  }

  function VrfText(t: Target): string {
    if t.GatewayInVrf? then t.vrf else ""
  }

  function IfnameText(t: Target): string {
    if t.Device? then t.ifname else ""
  }

  /** The next hops an add command stands for: one for each gateway. */
  function HopsOf(t: Target): seq<Hop> {
    var gateways := if NexthopText(t).Some? then Split(NexthopText(t).value) else [""];
    seq(|gateways|, i requires 0 <= i < |gateways| =>
      Hop(gateways[i], VrfText(t), IfnameText(t), "0", if IfnameText(t) == "null" then "true" else "false"))
  }

  /** The names an IP parser, the VRF table and the interface tables accept. */
  datatype Known = Known(address: string -> bool, portChannels: set<string>, vrfs: set<string>, interfaces: set<string>)

  /** Names and addresses are not empty and hold no commas. */
  ghost predicate WellNamed(k: Known) {
    && (forall a :: k.address(a) ==> a != "" && NoComma(a))
    && (forall v | v in k.vrfs :: NoComma(v))
    && (forall i | i in k.interfaces :: i != "" && NoComma(i))
  }

  predicate GatewayOk(k: Known, gateway: string) {
    if "PortChannel" <= gateway then gateway in k.portChannels else k.address(gateway)
  }

  /** The checks of cli_sroute_to_config. */
  predicate Accepted(k: Known, t: Target) {
    && (t.GatewayInVrf? ==> t.vrf in k.vrfs)
    && (NexthopText(t).Some? ==> forall g | g in Split(NexthopText(t).value) :: GatewayOk(k, g))
  }

  /** The further check of add_route. */
  predicate Addable(k: Known, t: Target) {
    Accepted(k, t) && !t.Unspecified? && (t.Device? ==> t.ifname in k.interfaces || t.ifname == "null")
  }

  /** Gateways are accepted exactly if each is an address or an existing port channel, a VRF and an interface if they
      exist, where null counts as an interface; a route with no next hop is never added.
   */
  lemma AddableIff(k: Known, gateways: seq<string>, vrf: string, ifname: string)
    requires gateways != [] && NoCommas(gateways)
    ensures
      var fit := forall g | g in gateways ::
        if |g| >= 11 && g[..11] == "PortChannel" then g in k.portChannels else k.address(g);
      && (Addable(k, Gateway(Join(gateways))) <==> fit)
      && (Addable(k, GatewayInVrf(vrf, Join(gateways))) <==> fit && vrf in k.vrfs)
    ensures Addable(k, Device(ifname)) <==> ifname in k.interfaces || ifname == "null"
    ensures !Addable(k, Unspecified) && Accepted(k, Unspecified)
  {
    SplitJoin(gateways);
    forall g | g in gateways
      ensures GatewayOk(k, g)
        <==> if |g| >= 11 && g[..11] == "PortChannel" then g in k.portChannels else k.address(g)
    {
      GatewayOkIff(k, g);
    }
  }

  lemma GatewayOkIff(k: Known, g: string)
    ensures GatewayOk(k, g) <==> if |g| >= 11 && g[..11] == "PortChannel" then g in k.portChannels else k.address(g)
  {
    assert |"PortChannel"| == 11;
    assert "PortChannel" <= g <==> |g| >= 11 && g[..11] == "PortChannel";
  }

  lemma HopsSound(k: Known, t: Target)
    requires WellNamed(k) && Addable(k, t)
    ensures HopsOf(t) != [] && forall h | h in HopsOf(t) :: Sound(h)
  {
    PlainWords();
    var gateways := if NexthopText(t).Some? then Split(NexthopText(t).value) else [""];
    if NexthopText(t).Some? { JoinSplit(NexthopText(t).value); }
    assert NoComma(VrfText(t)) && NoComma(IfnameText(t));
    forall i | 0 <= i < |gateways| ensures NoComma(gateways[i]) && (gateways[i] != "" || IfnameText(t) != "") {
      assert gateways[i] in gateways;
    }
    var hops := HopsOf(t);
    forall i | 0 <= i < |hops| ensures Sound(hops[i]) {
    }
  }

  lemma PlainWords()
    ensures NoComma("") && NoComma("0") && NoComma("true") && NoComma("false") && NoComma("null")
  {
    assert forall c | c in "true" + "false" + "null" :: c != ',';
    assert forall c | c in "true" :: c in "true" + "false" + "null";
    assert forall c | c in "false" :: c in "true" + "false" + "null";
    assert forall c | c in "null" :: c in "true" + "false" + "null";
  }

  /** The first next hop with this gateway, VRF and interface; |hops| if there is none. */
  function IndexOf(hops: seq<Hop>, nexthop: string, vrf: string, ifname: string): (i: nat)
    ensures i <= |hops|
    ensures forall j | 0 <= j < i :: !(hops[j].nexthop == nexthop && hops[j].vrf == vrf && hops[j].ifname == ifname)
    ensures i < |hops| ==> hops[i].nexthop == nexthop && hops[i].vrf == vrf && hops[i].ifname == ifname
  {
    if hops == [] then 0
    else if hops[0].nexthop == nexthop && hops[0].vrf == vrf && hops[0].ifname == ifname then 0
    else 1 + IndexOf(hops[1..], nexthop, vrf, ifname)
  }

  lemma HopsAt(t: Target, gateways: seq<string>)
    requires gateways == if NexthopText(t).Some? then Split(NexthopText(t).value) else [""]
    ensures |HopsOf(t)| == |gateways|
    ensures forall i | 0 <= i < |gateways| ::
      var blackhole := if IfnameText(t) == "null" then "true" else "false";
      HopsOf(t)[i] == Hop(gateways[i], VrfText(t), IfnameText(t), "0", blackhole)
  {
  }

  /** The record of a next hop carries what the command named: its gateway, VRF or interface, distance 0, and whether
      the interface is null.
   */
  lemma HopsCarry(gateways: seq<string>, vrf: string, ifname: string)
    requires gateways != [] && NoCommas(gateways)
    ensures forall i | 0 <= i < |gateways| ::
      && |HopsOf(Gateway(Join(gateways)))| == |HopsOf(GatewayInVrf(vrf, Join(gateways)))| == |gateways|
      && HopsOf(Gateway(Join(gateways)))[i] == Hop(gateways[i], "", "", "0", "false")
      && HopsOf(GatewayInVrf(vrf, Join(gateways)))[i] == Hop(gateways[i], vrf, "", "0", "false")
    ensures HopsOf(Device(ifname)) == [Hop("", "", ifname, "0", if ifname == "null" then "true" else "false")]
  {
    SplitJoin(gateways);
    HopsAt(Gateway(Join(gateways)), gateways);
    HopsAt(GatewayInVrf(vrf, Join(gateways)), gateways);
    HopsAt(Device(ifname), [""]);
  }

  /** The next hop is one that the target names. */
  predicate NamedBy(h: Hop, target: Target) {
    match target
    case Gateway(nexthop) => h.nexthop == nexthop && h.vrf == "" && h.ifname == ""
    case GatewayInVrf(vrf, nexthop) => h.nexthop == nexthop && h.vrf == vrf && h.ifname == ""
    case Device(ifname) => h.nexthop == "" && h.vrf == "" && h.ifname == ifname
    case Unspecified => true
  }

  /** The routing table as it is meant: a list of next hops for every prefix. */
  type Table = map<string, seq<Hop>>

  predicate SoundTable(t: Table) {
    forall key | key in t :: t[key] != [] && forall h | h in t[key] :: Sound(h)
  }

  /** The STATIC_ROUTE table that keeps it. */
  function Stored(t: Table): map<string, Entry> {
    map key | key in t :: Joined(t[key])
  }

  function Added(t: Table, key: string, target: Target): Table {
    t[key := (if key in t then t[key] else []) + HopsOf(target)]
  }

  /** A removal that names no next hop drops the prefix; otherwise the first such next hop goes, and
      the prefix with the last one. None stands for the failure when there is no such next hop.
   */
  function Removed(t: Table, key: string, target: Target): Option<Table> {
    if key !in t then None
    else if target.Unspecified? then Some(t - {key})
    else
      var hops := t[key];
      var i := IndexOf(hops, Wanted(target), VrfText(target), IfnameText(target));
      if i == |hops| then None
      else if |hops| == 1 then Some(t - {key})
      else Some(t[key := Drop(hops, i)])
  }

  // ---------- The commands on the columns ----------

  lemma JoinedAt(hops: seq<Hop>, column: Column)
    requires hops != [] && forall h | h in hops :: Sound(h)
    ensures Split(Text(Joined(hops), column)) == Items(hops, column)
  {
    var items := Items(hops, column);
    forall x | x in items ensures NoComma(x) {
      var i :| 0 <= i < |items| && items[i] == x;
      assert Sound(hops[i]);
    }
    SplitJoin(items);
  }

  /** Joining is one-to-one on sound next hops, so the columns lose nothing. */
  lemma JoinedInjective(a: seq<Hop>, b: seq<Hop>)
    requires a != [] && b != [] && (forall h | h in a :: Sound(h)) && (forall h | h in b :: Sound(h))
    requires Joined(a) == Joined(b)
    ensures a == b
  {
    forall c: Column ensures Items(a, c) == Items(b, c) {
      JoinedAt(a, c);
      JoinedAt(b, c);
    }
    assert |Items(a, Nexthop)| == |Items(b, Nexthop)|;
    forall i | 0 <= i < |a| ensures a[i] == b[i] {
      assert Items(a, Nexthop)[i] == Items(b, Nexthop)[i];
      assert Items(a, NexthopVrf)[i] == Items(b, NexthopVrf)[i];
      assert Items(a, Ifname)[i] == Items(b, Ifname)[i];
      assert Items(a, Distance)[i] == Items(b, Distance)[i];
      assert Items(a, Blackhole)[i] == Items(b, Blackhole)[i];
    }
  }

  /** All five columns have as many items as there are next hops. */
  lemma ColumnsAligned(t: Table, key: string)
    requires SoundTable(t) && key in t
    ensures forall c :: |Split(Text(Stored(t)[key], c))| == |t[key]|
  {
    forall c ensures |Split(Text(Stored(t)[key], c))| == |t[key]| {
      JoinedAt(t[key], c);
    }
  }

  lemma AddedSound(k: Known, t: Table, key: string, target: Target)
    requires SoundTable(t) && WellNamed(k) && Addable(k, target)
    ensures SoundTable(Added(t, key, target))
  {
    HopsSound(k, target);
  }

  lemma RemovedSound(t: Table, key: string, target: Target)
    requires SoundTable(t) && Removed(t, key, target).Some?
    ensures SoundTable(Removed(t, key, target).value)
  {
    var after := Removed(t, key, target).value;
    forall other | other in after ensures after[other] != [] && forall h | h in after[other] :: Sound(h) {
      assert other in t;
    }
  }

  /** Appending next hops appends one item per next hop to each column. */
  lemma JoinedAppend(a: seq<Hop>, b: seq<Hop>, column: Column)
    requires a != [] && b != []
    ensures Join(Items(a + b, column)) == Join(Items(a, column)) + "," + Join(Items(b, column))
  {
    assert Items(a + b, column) == Items(a, column) + Items(b, column);
    JoinAppend(Items(a, column), Items(b, column));
  }

  // ---------- Runs of commands ----------

  /** Each command with the port channels, VRFs and interfaces that exist when it is given */
  datatype Command = Add(known: Known, key: string, target: Target) | Del(known: Known, key: string, target: Target)

  /** A command that fails a check changes nothing. */
  function After(t: Table, c: Command): Table {
    match c
    case Add(k, key, target) => if Addable(k, target) then Added(t, key, target) else t
    case Del(k, key, target) =>
      if Accepted(k, target) && Removed(t, key, target).Some? then Removed(t, key, target).value else t
  }

  function RunAll(t: Table, commands: seq<Command>): Table
    decreases |commands|
  {
    if commands == [] then t
    else After(RunAll(t, commands[..|commands| - 1]), commands[|commands| - 1])
  }

  /** After every run the five columns of every prefix are aligned, and give back exactly its next hops. */
  lemma {:induction false} RunsStayAligned(commands: seq<Command>)
    requires forall c | c in commands :: WellNamed(c.known)
    ensures SoundTable(RunAll(map[], commands))
    ensures forall key, c | key in RunAll(map[], commands) ::
      var t := RunAll(map[], commands);
      Split(Text(Stored(t)[key], c)) == Items(t[key], c) && |Items(t[key], c)| == |t[key]|
    decreases |commands|
  {
    var t := RunAll(map[], commands);
    if commands != [] {
      var shorter, last := commands[..|commands| - 1], commands[|commands| - 1];
      assert last in commands && forall c | c in shorter :: c in commands;
      RunsStayAligned(shorter);
      var before := RunAll(map[], shorter);
      match last {
        case Add(k, key, target) => if Addable(k, target) { AddedSound(k, before, key, target); }
        case Del(_, key, target) => if Removed(before, key, target).Some? { RemovedSound(before, key, target); }
      }
    }
    forall key, c | key in t ensures Split(Text(Stored(t)[key], c)) == Items(t[key], c) {
      JoinedAt(t[key], c);
    }
  }

  predicate IsHop(h: Hop, nexthop: string, vrf: string, ifname: string) {
    h.nexthop == nexthop && h.vrf == vrf && h.ifname == ifname
  }

  lemma FirstTaken(hops: seq<Hop>, nexthop: string, vrf: string, ifname: string)
    returns (a: seq<Hop>, h: Hop, b: seq<Hop>)
    requires IndexOf(hops, nexthop, vrf, ifname) < |hops|
    ensures hops == a + [h] + b && Drop(hops, IndexOf(hops, nexthop, vrf, ifname)) == a + b && |a + b| == |hops| - 1
    ensures IsHop(h, nexthop, vrf, ifname) && forall o | o in a :: !IsHop(o, nexthop, vrf, ifname)
  {
    var i := IndexOf(hops, nexthop, vrf, ifname);
    a, h, b := hops[..i], hops[i], hops[i + 1..];
  }

  /** A removal takes away exactly the first matching next hop; all others keep every field and their order,
      and the prefix is gone exactly when that was its last one.
   */
  lemma RemovalIsExact(t: Table, key: string, target: Target)
    requires key in t && !target.Unspecified? && Removed(t, key, target).Some?
    ensures
      var after := Removed(t, key, target).value;
      exists a, h, b :: t[key] == a + [h] + b
        && NamedBy(h, target)
        && (forall o | o in a :: !NamedBy(o, target))
        && (key in after <==> a + b != []) && (key in after ==> after[key] == a + b)
        && (forall other | other != key :: other in after <==> other in t)
        && (forall other | other != key && other in t :: after[other] == t[other])
  {
    var wanted := Wanted(target);
    var a, h, b := FirstTaken(t[key], wanted, VrfText(target), IfnameText(target));
  }

  /** There is no such next hop exactly if the removal fails. */
  lemma RemovalFailsIff(t: Table, key: string, target: Target)
    ensures Removed(t, key, target).None? <==>
      key !in t || (!target.Unspecified? && forall h | h in t[key] :: !NamedBy(h, target))
  {
    if key in t && !target.Unspecified? {
      var hops := t[key];
      var i := IndexOf(hops, Wanted(target), VrfText(target), IfnameText(target));
      if i < |hops| {
        assert hops[i] in hops && NamedBy(hops[i], target);
      } else {
        forall h | h in hops ensures !NamedBy(h, target) {
          var j :| 0 <= j < |hops| && hops[j] == h;
        }
      }
    }
  }

  /** A next hop that was not there and is added can be removed, which restores the table. */
  lemma AddUndone(t: Table, key: string, target: Target)
    requires |HopsOf(target)| == 1 && !target.Unspecified?
    requires key in t ==> t[key] != [] && forall h | h in t[key] :: !NamedBy(h, target)
    ensures Removed(Added(t, key, target), key, target) == Some(t)
  {
    var hops := if key in t then t[key] else [];
    var hop := HopsOf(target)[0];
    NamesItself(target);
    var all := hops + HopsOf(target);
    assert all == hops + [hop];
    var i := IndexOf(all, Wanted(target), VrfText(target), IfnameText(target));
    assert i == |hops| by {
      assert all[|hops|] == hop;
      if i < |hops| { assert all[i] in hops && NamedBy(all[i], target); }
    }
    assert all[..i] == hops && all[i + 1..] == [] && Drop(all, i) == hops;
    if key in t {
      assert Added(t, key, target)[key := hops] == t;
    } else {
      assert Added(t, key, target) - {key} == t;
    }
  }

  lemma NamesItself(target: Target)
    requires |HopsOf(target)| == 1 && !target.Unspecified?
    ensures NamedBy(HopsOf(target)[0], target)
  {
    var gateways := if NexthopText(target).Some? then Split(NexthopText(target).value) else [""];
    HopsAt(target, gateways);
    if NexthopText(target).Some? {
      JoinSplit(NexthopText(target).value);
      assert Join(gateways) == gateways[0];
    }
  }

  /** A column splits into as many items as there are next hops exactly if none of them has a comma in it. */
  lemma AlignedIffNoComma(hops: seq<Hop>, c: Column)
    requires hops != []
    ensures |Split(Text(Joined(hops), c))| == |hops| <==> forall h | h in hops :: NoComma(Field(h, c))
  {
    var items := Items(hops, c);
    SameCountIff(items);
    forall i | 0 <= i < |hops| ensures items[i] in items && items[i] == Field(hops[i], c) {
    }
  }

  /** An interface name with a comma, where one exists, gets past the checks and puts its column out of step. */
  lemma CommaPutsOutOfStep(k: Known, key: string, ifname: string)
    requires ifname in k.interfaces && !NoComma(ifname)
    ensures
      var t := After(map[], Add(k, key, Device(ifname)));
      key in t && |t[key]| == 1 && |Split(Text(Stored(t)[key], Ifname))| > 1
  {
    var hops := HopsOf(Device(ifname));
    var t := After(map[], Add(k, key, Device(ifname)));
    var none: seq<Hop> := [];
    assert none + hops == hops && |hops| == 1;
    assert IfnameText(Device(ifname)) == ifname && NexthopText(Device(ifname)) == None;
    assert [""][0] == "" && hops[0].ifname == ifname;
    assert hops[0] in hops;
    AlignedIffNoComma(hops, Ifname);
  }

  lemma StoredPut(t: Table, key: string, hops: seq<Hop>)
    ensures Stored(t)[key := Joined(hops)] == Stored(t[key := hops])
  {
  }

  lemma StoredDrop(t: Table, key: string)
    ensures Stored(t) - {key} == Stored(t - {key})
  {
  }

  /** Removing the next hop at the index that was found. */
  lemma RemovedAt(t: Table, key: string, target: Target, i: nat)
    requires key in t && !target.Unspecified? && i < |t[key]|
    requires i == IndexOf(t[key], Wanted(target), VrfText(target), IfnameText(target))
    ensures Removed(t, key, target).Some?
    ensures Stored(Removed(t, key, target).value)
         == if Drop(t[key], i) == [] then Stored(t) - {key} else Stored(t)[key := Joined(Drop(t[key], i))]
  {
    if |t[key]| == 1 {
      StoredDrop(t, key);
    } else {
      StoredPut(t, key, Drop(t[key], i));
      assert |Drop(t[key], i)| == |t[key]| - 1;
    }
  }

  class RouteConfig {
    var routes: map<string, Entry>

    constructor ()
      ensures routes == map[]
    {
      routes := map[];
    }

    /** The alignment loop: a value for each column, repeated to as many items as there are gateways. */
    method Align(target: Target) returns (route: Entry)
      requires !target.Unspecified? && NoComma(VrfText(target))
      ensures route == Joined(HopsOf(target))
    {
      var nexthop, entryCounter := "", 1;
      if NexthopText(target).Some? {
        nexthop := NexthopText(target).value;
        entryCounter := |Split(nexthop)|;
        JoinSplit(nexthop);
      }
      ghost var hops := HopsOf(target);
      assert Items(hops, Nexthop) == if NexthopText(target).Some? then Split(nexthop) else [""];
      var vrf, ifname, distance, blackhole := VrfText(target), IfnameText(target), "0", "false";
      if ifname == "null" {
        blackhole := "true";
      }
      FirstHop(target);
      for i := 1 to entryCounter
        invariant vrf == Join(Items(hops[..i], NexthopVrf)) && ifname == Join(Items(hops[..i], Ifname))
        invariant distance == Join(Items(hops[..i], Distance)) && blackhole == Join(Items(hops[..i], Blackhole))
      {
        OneMoreHop(target, i);
        SplitNoComma(VrfText(target));
        vrf := vrf + "," + Split(VrfText(target))[0];
        ifname := ifname + ",";
        distance := distance + "," + "0";
        blackhole := blackhole + "," + "false";
      }
      assert hops[..entryCounter] == hops;
      route := Entry(nexthop, vrf, ifname, distance, blackhole);
    }

    /** Appends every column of the new route to the entry. */
    method AppendColumns(entry: Entry, route: Entry, ghost hops: seq<Hop>, ghost more: seq<Hop>)
      returns (currentEntry: Entry)
      requires hops != [] && more != [] && entry == Joined(hops) && route == Joined(more)
      ensures currentEntry == Joined(hops + more)
    {
      JoinedAppend(hops, more, Nexthop);
      JoinedAppend(hops, more, NexthopVrf);
      JoinedAppend(hops, more, Ifname);
      JoinedAppend(hops, more, Distance);
      JoinedAppend(hops, more, Blackhole);
      currentEntry := Entry(
        entry.nexthop + "," + route.nexthop, entry.nexthopVrf + "," + route.nexthopVrf, 
        entry.ifname + "," + route.ifname,
        entry.distance + "," + route.distance, entry.blackhole + "," + route.blackhole);
    }

    /** add_route; false stands for the failure of a check */
    method AddRoute(known: Known, key: string, target: Target, ghost t: Table) returns (ok: bool)
      requires WellNamed(known) && SoundTable(t) && routes == Stored(t)
      modifies this
      ensures ok <==> Addable(known, target)
      ensures routes == Stored(if ok then Added(t, key, target) else t)
      ensures ok ==> SoundTable(Added(t, key, target))
    {
      if !Addable(known, target) {
        return false;
      }
      AddedSound(known, t, key, target);
      HopsSound(known, target);
      assert Sound(HopsOf(target)[0]);
      var route := Align(target);
      if key in routes {
        var currentEntry := AppendColumns(routes[key], route, t[key], HopsOf(target));
        StoredPut(t, key, t[key] + HopsOf(target));
        routes := routes[key := currentEntry];
      } else {
        assert [] + HopsOf(target) == HopsOf(target);
        StoredPut(t, key, HopsOf(target));
        routes := routes[key := route];
      }
      ok := true;
    }

    /** del_route; false stands for the failure of a check */
    method DelRoute(known: Known, key: string, target: Target, ghost t: Table) returns (ok: bool)
      requires SoundTable(t) && routes == Stored(t)
      modifies this
      ensures ok <==> Accepted(known, target) && Removed(t, key, target).Some?
      ensures routes == Stored(if ok then Removed(t, key, target).value else t)
      ensures ok ==> SoundTable(Removed(t, key, target).value)
    {
      if !Accepted(known, target) || key !in routes {
        return false;
      }
      if target.Unspecified? {
        RemovedSound(t, key, target);
        routes := routes - {key};
        return true;
      }
      ok, routes := RemoveHop(key, target, t);
    }

    /** The part of del_route that looks for the next hop in the columns. */
    method RemoveHop(key: string, target: Target, ghost t: Table) returns (ok: bool, after: map<string, Entry>)
      requires SoundTable(t) && routes == Stored(t) && key in t && !target.Unspecified?
      ensures ok <==> Removed(t, key, target).Some?
      ensures after == Stored(if ok then Removed(t, key, target).value else t)
      ensures ok ==> SoundTable(Removed(t, key, target).value)
    {
      var entry := routes[key];
      ghost var hops := t[key];
      ColumnsSplit(hops);
      var nh, nhVrf, ifname := Split(entry.nexthop), Split(entry.nexthopVrf), Split(entry.ifname);
      var distance, blackhole := Split(entry.distance), Split(entry.blackhole);
      var wanted := Wanted(target);
      var idx := FindTuple(nh, nhVrf, ifname, wanted, VrfText(target), IfnameText(target), hops);
      if idx == |nh| {
        return false, routes;
      }
      RemovedSound(t, key, target);
      RemovedAt(t, key, target, idx);
      ok := true;
      after := DropAt(key, idx, nh, nhVrf, ifname, distance, blackhole, hops);
    }

    /** Deletes one item of each column, and the key if only the empty one is left. */
    method DropAt(key: string, idx: nat, nh0: seq<string>, nhVrf0: seq<string>, ifname0: seq<string>,
                  distance0: seq<string>, blackhole0: seq<string>, ghost hops: seq<Hop>)
      returns (after: map<string, Entry>)
      requires idx < |hops| && forall h | h in hops :: Sound(h)
      requires nh0 == Items(hops, Nexthop) && nhVrf0 == Items(hops, NexthopVrf) && ifname0 == Items(hops, Ifname)
      requires distance0 == Items(hops, Distance) && blackhole0 == Items(hops, Blackhole)
      ensures after == if Drop(hops, idx) == [] then routes - {key} else routes[key := Joined(Drop(hops, idx))]
    {
      ghost var left := Drop(hops, idx);
      DropItem(hops, idx);
      LastHop(hops, left);
      var nh, nhVrf, ifname := Drop(nh0, idx), Drop(nhVrf0, idx), Drop(ifname0, idx);
      var distance, blackhole := Drop(distance0, idx), Drop(blackhole0, idx);
      if (|nh| == 0 || (|nh| == 1 && nh[0] == "")) && (|ifname| == 0 || (|ifname| == 1 && ifname[0] == "")) {
        after := routes - {key};
      } else {
        after := routes[key := Entry(Join(nh), Join(nhVrf), Join(ifname), Join(distance), Join(blackhole))];
      }
    }

    /** nh_zip.index(cli_tuple), |nh| when it is not there */
    method FindTuple(nh: seq<string>, nhVrf: seq<string>, ifname: seq<string>, nexthop: string, vrf: string,
                     name: string, ghost hops: seq<Hop>) returns (idx: nat)
      requires nh == Items(hops, Nexthop) && nhVrf == Items(hops, NexthopVrf) && ifname == Items(hops, Ifname)
      ensures idx == IndexOf(hops, nexthop, vrf, name)
    {
      idx := 0;
      while idx < |nh| && !(nh[idx] == nexthop && nhVrf[idx] == vrf && ifname[idx] == name)
        invariant idx <= |nh|
        invariant forall j | 0 <= j < idx ::
          !(hops[j].nexthop == nexthop && hops[j].vrf == vrf && hops[j].ifname == name)
      {
        idx := idx + 1;
      }
    }
  }

  function Drop<T>(items: seq<T>, i: nat): seq<T>
    requires i < |items|
  {
    items[..i] + items[i + 1..]
  }

  /** What is left shows an empty gateway and an empty interface only when nothing is left. */
  lemma LastHop(hops: seq<Hop>, left: seq<Hop>)
    requires (forall h | h in hops :: Sound(h)) && forall h | h in left :: h in hops
    ensures left == [] <==>
      (left == [] || (|left| == 1 && Items(left, Nexthop)[0] == ""))
        && (left == [] || (|left| == 1 && Items(left, Ifname)[0] == ""))
  {
    if |left| == 1 { assert left[0] in left; }
  }

  lemma ColumnsSplit(hops: seq<Hop>)
    requires hops != [] && forall h | h in hops :: Sound(h)
    ensures forall c :: Split(Text(Joined(hops), c)) == Items(hops, c)
  {
    forall c ensures Split(Text(Joined(hops), c)) == Items(hops, c) {
      JoinedAt(hops, c);
    }
  }

  lemma FirstHop(t: Target)
    requires !t.Unspecified?
    ensures var h := HopsOf(t)[..1];
      && Join(Items(h, NexthopVrf)) == VrfText(t) && Join(Items(h, Ifname)) == IfnameText(t)
      && Join(Items(h, Distance)) == "0"
        && Join(Items(h, Blackhole)) == if IfnameText(t) == "null" then "true" else "false"
  {
    var h := HopsOf(t)[..1];
    assert h == [HopsOf(t)[0]];
  }

  lemma OneMoreHop(t: Target, i: nat)
    requires 1 <= i < |HopsOf(t)|
    ensures var a, b := HopsOf(t)[..i], HopsOf(t)[..i + 1];
      && Join(Items(b, NexthopVrf)) == Join(Items(a, NexthopVrf)) + "," + VrfText(t)
      && Join(Items(b, Ifname)) == Join(Items(a, Ifname)) + ","
      && Join(Items(b, Distance)) == Join(Items(a, Distance)) + "," + "0"
      && Join(Items(b, Blackhole)) == Join(Items(a, Blackhole)) + "," + "false"
  {
    var hops := HopsOf(t);
    assert IfnameText(t) == "";
    OneMoreItem(hops, i, NexthopVrf);
    OneMoreItem(hops, i, Ifname);
    OneMoreItem(hops, i, Distance);
    OneMoreItem(hops, i, Blackhole);
    assert hops[i].blackhole == "false";
    var before := Join(Items(hops[..i], Ifname)) + ",";
    assert before + "" == before;
  }

  lemma OneMoreItem(hops: seq<Hop>, i: nat, c: Column)
    requires 1 <= i < |hops|
    ensures Join(Items(hops[..i + 1], c)) == Join(Items(hops[..i], c)) + "," + Field(hops[i], c)
  {
    assert hops[..i + 1] == hops[..i] + [hops[i]];
    JoinedAppend(hops[..i], [hops[i]], c);
    assert Items([hops[i]], c) == [Field(hops[i], c)];
  }

  lemma DropItem(hops: seq<Hop>, i: nat)
    requires i < |hops|
    ensures forall c :: Items(Drop(hops, i), c) == Drop(Items(hops, c), i)
  {
  }
}
