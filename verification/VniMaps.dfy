/** The VLAN, VXLAN tunnel, VLAN to VNI and VRF to VNI tables, and the commands that keep them in
    step with each other.
 */
module VniMaps {
  import opened JsonTree
  import opened Decimal

  datatype Mapping = Mapping(vlan: string, vni: string)

  /** The tables, by key; a VRF may have a VNI, and "0" says that it was taken away. */
  datatype State = State(
    vlans: set<string>,
    tunnels: set<string>,
    maps: map<string, Mapping>,
    vrfs: map<string, Option<string>>)

  const EMPTY := State({}, {}, map[], map[])

  function VlanName(vid: string): string {
    "Vlan" + vid
  }

  /** vxlan_name|map_<vni>_Vlan<id> */
  function Key(tunnel: string, m: Mapping): string {
    tunnel + "|map" + "_" + m.vni + "_" + m.vlan
  }

  predicate ValidVlan(vid: int) {
    1 <= vid <= 4094
  }

  predicate ValidVni(vni: int) {
    1 <= vni <= 16777215
  }

  predicate IsVlanId(s: string) {
    AllDigits(s) && ValidVlan(Value(s))
  }

  predicate IsVni(s: string) {
    AllDigits(s) && ValidVni(Value(s))
  }

  // ---------- What must always hold ----------

  predicate HasVlan(m: Mapping, vlan: string) {
    m.vlan == vlan
  }

  predicate HasVni(m: Mapping, vni: string) {
    m.vni == vni
  }

  /** No two entries share a VLAN or a VNI. */
  predicate OneToOne(maps: map<string, Mapping>) {
    forall k, l | k in maps && l in maps && k != l :: !HasVlan(maps[k], maps[l].vlan) && !HasVni(maps[k], maps[l].vni)
  }

  predicate WellFormed(s: State, k: string)
    requires k in s.maps
  {
    && IsVni(s.maps[k].vni) && s.maps[k].vlan in s.vlans
    && exists t | t in s.tunnels :: k == Key(t, s.maps[k])
  }

  predicate IsMapped(maps: map<string, Mapping>, vni: string) {
    exists k | k in maps :: HasVni(maps[k], vni)
  }

  predicate IsVlanName(name: string) {
    |name| > 4 && name[..4] == "Vlan" && Canonical(name[4..])
  }

  predicate HasLiveVni(vrfs: map<string, Option<string>>, vrf: string) {
    vrf in vrfs && vrfs[vrf].Some? && vrfs[vrf].value != "0"
  }

  ghost predicate VrfsMapped(s: State) {
    forall v | HasLiveVni(s.vrfs, v) :: IsMapped(s.maps, s.vrfs[v].value)
  }

  ghost predicate VrfsApart(vrfs: map<string, Option<string>>) {
    forall v, w | HasLiveVni(vrfs, v) && HasLiveVni(vrfs, w) && v != w :: vrfs[v] != vrfs[w]
  }

  ghost predicate Invariant(s: State) {
    && |s.tunnels| <= 1
    && (forall v | v in s.vlans :: IsVlanName(v))
    && (forall k | k in s.maps :: WellFormed(s, k))
    && OneToOne(s.maps)
    && VrfsMapped(s)
    && VrfsApart(s.vrfs)
  }

  // ---------- Key texts ----------

  /** What follows the last underscore */
  function LastPart(s: string): string {
    if s == "" || s[|s| - 1] == '_' then "" else LastPart(s[..|s| - 1]) + [s[|s| - 1]]
  }

  lemma {:induction false} LastPartIs(a: string, b: string)
    requires '_' !in b
    ensures LastPart(a + "_" + b) == b
  {
    var s := a + "_" + b;
    if b == "" {
      assert s[|s| - 1] == '_';
    } else {
      var front := b[..|b| - 1];
      assert forall c | c in front :: c in b;
      assert s[|s| - 1] == b[|b| - 1] && b[|b| - 1] in b;
      assert s[..|s| - 1] == a + "_" + front;
      LastPartIs(a, front);
      assert front + [b[|b| - 1]] == b;
    }
  }

  lemma SameParts(a: string, b: string, c: string, d: string)
    requires a + "_" + b == c + "_" + d && '_' !in b && '_' !in d
    ensures a == c && b == d
  {
    LastPartIs(a, b);
    LastPartIs(c, d);
    assert a == (a + "_" + b)[..|a|] && c == (c + "_" + d)[..|c|];
  }

  lemma NoUnderscore(m: Mapping)
    requires AllDigits(m.vni) && IsVlanName(m.vlan)
    ensures '_' !in m.vni && '_' !in m.vlan
  {
    forall i | 0 <= i < |m.vlan| ensures m.vlan[i] != '_' {
      if i < 4 {
        assert m.vlan[i] == m.vlan[..4][i];
      } else {
        assert m.vlan[i] == m.vlan[4..][i - 4] && m.vlan[4..][i - 4] in m.vlan[4..];
      }
    }
  }

  /** The key of an entry tells its tunnel, its VLAN and its VNI. */
  lemma KeyInjective(t: string, m: Mapping, u: string, n: Mapping)
    requires AllDigits(m.vni) && IsVlanName(m.vlan) && AllDigits(n.vni) && IsVlanName(n.vlan)
    ensures Key(t, m) == Key(u, n) <==> t == u && m == n
  {
    NoUnderscore(m);
    NoUnderscore(n);
    if Key(t, m) == Key(u, n) {
      SameParts(t + "|map" + "_" + m.vni, m.vlan, u + "|map" + "_" + n.vni, n.vlan);
      SameParts(t + "|map", m.vni, u + "|map", n.vni);
      assert t == (t + "|map")[..|t|];
      assert u == (u + "|map")[..|u|];
    }
  }

  lemma BareNameDiffers(t: string, vlan: string, vni: string, u: string, m: Mapping)
    requires AllDigits(vlan) && AllDigits(m.vni) && IsVlanName(m.vlan)
    ensures Key(t, Mapping(vlan, vni)) != Key(u, m)
  {
    NoUnderscore(m);
    LastPartIs(t + "|map" + "_" + vni, vlan);
    LastPartIs(u + "|map" + "_" + m.vni, m.vlan);
    assert vlan[0] in vlan && m.vlan[0] == "Vlan"[0];
  }

  /** The name without "Vlan", which del_vxlan_map deletes first, is never the key of an entry. */
  lemma BareNameMisses(s: State, tunnel: string, vlan: string, vni: string)
    requires Invariant(s) && AllDigits(vlan)
    ensures Key(tunnel, Mapping(vlan, vni)) !in s.maps
  {
    forall k | k in s.maps ensures k != Key(tunnel, Mapping(vlan, vni)) {
      assert WellFormed(s, k);
      var t :| t in s.tunnels && k == Key(t, s.maps[k]);
      BareNameDiffers(tunnel, vlan, vni, t, s.maps[k]);
    }
  }

  lemma VlanNameOf(vid: nat)
    ensures IsVlanName(VlanName(Digits(vid)))
  {
    DigitsCanonical(vid);
    assert VlanName(Digits(vid))[..4] == "Vlan" && VlanName(Digits(vid))[4..] == Digits(vid);
  }

  lemma VlanNameInjective(a: string, b: string)
    ensures VlanName(a) == VlanName(b) <==> a == b
  {
    assert VlanName(a)[4..] == a && VlanName(b)[4..] == b;
  }

  // ---------- The commands ----------

  datatype Command =
    /** relay: a DHCP_RELAY entry for the VLAN exists; used: VLAN_INTERFACE or VLAN_MEMBER names it */
    | AddVlan(vid: int, relay: bool)
    | DelVlan(vid: int, used: bool)
    /** referenced: an EVPN NVO exists or a VNET names the tunnel */
    | AddTunnel(tunnel: string, validAddress: bool)
    | DelTunnel(tunnel: string, referenced: bool)
    | AddMap(tunnel: string, vlan: string, vni: string)
    | DelMap(tunnel: string, vlan: string, vni: string)
    | AddMapRange(tunnel: string, vlanStart: int, vlanEnd: int, vniStart: int)
    /** used: SYSLOG_SERVER names it */
    | AddVrf(vrf: string)
    | DelVrf(vrf: string, used: bool)
    | AddVrfVni(vrf: string, vni: string)
    | DelVrfVni(vrf: string)

  predicate IsVrfName(name: string) {
    |name| <= 15 && |name| >= 3 && name[..3] == "Vrf"
  }

  predicate VlanTaken(maps: map<string, Mapping>, vlan: string) {
    exists k | k in maps :: HasVlan(maps[k], vlan)
  }

  predicate VniOnVrf(vrfs: map<string, Option<string>>, vni: string) {
    exists v | v in vrfs :: vrfs[v] == Some(vni)
  }

  predicate CanAddMap(s: State, tunnel: string, vlan: string, vni: string) {
    && IsVlanId(vlan) && IsVni(vni) && tunnel in s.tunnels && VlanName(vlan) in s.vlans
    && !VlanTaken(s.maps, VlanName(vlan)) && !IsMapped(s.maps, vni)
  }

  function Put(s: State, tunnel: string, m: Mapping): State {
    s.(maps := s.maps[Key(tunnel, m) := m])
  }

  /** A single add that is skipped if it is refused */
  function AddOrSkip(s: State, tunnel: string, vlan: string, vni: string): State {
    if CanAddMap(s, tunnel, vlan, vni) then Put(s, tunnel, Mapping(VlanName(vlan), vni)) else s
  }

  /** The single add for each VLAN and VNI in turn, skipping those that it refuses. */
  function Fold(s: State, tunnel: string, vlanStart: nat, vniStart: nat, n: nat): State {
    if n == 0 then s
    else AddOrSkip(Fold(s, tunnel, vlanStart, vniStart, n - 1), tunnel, Digits(vlanStart + n - 1),
      Digits(vniStart + n - 1))
  }

  /** Whether the command gets past its checks */
  predicate Can(s: State, c: Command) {
    match c
    case AddVlan(vid, relay) => ValidVlan(vid) && vid != 1 && VlanName(Digits(vid)) !in s.vlans && !relay
    case DelVlan(vid, used) =>
      ValidVlan(vid) && VlanName(Digits(vid)) in s.vlans && !used && !VlanTaken(s.maps, VlanName(Digits(vid)))
    case AddTunnel(tunnel, validAddress) => validAddress && s.tunnels == {}
    case DelTunnel(tunnel, referenced) => tunnel in s.tunnels && s.maps == map[] && !referenced
    case AddMap(tunnel, vlan, vni) => CanAddMap(s, tunnel, vlan, vni)
    case DelMap(tunnel, vlan, vni) => IsVlanId(vlan) && IsVni(vni) && tunnel in s.tunnels && !VniOnVrf(s.vrfs, vni)
    case AddMapRange(tunnel, vlanStart, vlanEnd, vniStart) =>
      && ValidVlan(vlanStart) && ValidVlan(vlanEnd) && vlanStart <= vlanEnd && ValidVni(vniStart)
      && ValidVni(vniStart + vlanEnd - vlanStart) && tunnel in s.tunnels
    case AddVrf(vrf) => IsVrfName(vrf) && vrf !in s.vrfs
    case DelVrf(vrf, used) => IsVrfName(vrf) && vrf in s.vrfs && !used
    case AddVrfVni(vrf, vni) => vrf in s.vrfs && IsVni(vni) && IsMapped(s.maps, vni) && !VniOnVrf(s.vrfs, vni)
    case DelVrfVni(vrf) => vrf in s.vrfs
  }

  /** The tables after the command; a refused one changes nothing. */
  function After(s: State, c: Command): State {
    if !Can(s, c) then s
    else
      match c
      case AddVlan(vid, _) => s.(vlans := s.vlans + {VlanName(Digits(vid))})
      case DelVlan(vid, _) => s.(vlans := s.vlans - {VlanName(Digits(vid))})
      case AddTunnel(tunnel, _) => s.(tunnels := s.tunnels + {tunnel})
      case DelTunnel(tunnel, _) => s.(tunnels := s.tunnels - {tunnel})
      case AddMap(tunnel, vlan, vni) => Put(s, tunnel, Mapping(VlanName(vlan), vni))
      case DelMap(tunnel, vlan, vni) => s.(maps := s.maps - {Key(tunnel, Mapping(VlanName(vlan), vni))})
      case AddMapRange(tunnel, vlanStart, vlanEnd, vniStart) =>
        Fold(s, tunnel, vlanStart, vniStart, vlanEnd + 1 - vlanStart)
      case AddVrf(vrf) => s.(vrfs := s.vrfs[vrf := None])
      case DelVrf(vrf, _) => s.(vrfs := s.vrfs - {vrf})
      case AddVrfVni(vrf, vni) => s.(vrfs := s.vrfs[vrf := Some(vni)])
      case DelVrfVni(vrf) => s.(vrfs := s.vrfs[vrf := Some("0")])
  }

  function AfterAll(s: State, commands: seq<Command>): State {
    if commands == [] then s else After(AfterAll(s, commands[..|commands| - 1]), commands[|commands| - 1])
  }

  // ---------- Every command keeps the invariant ----------

  lemma PutKeepsInvariant(s: State, tunnel: string, vlan: string, vni: string)
    requires Invariant(s) && CanAddMap(s, tunnel, vlan, vni)
    ensures Invariant(Put(s, tunnel, Mapping(VlanName(vlan), vni)))
  {
    var m := Mapping(VlanName(vlan), vni);
    var key := Key(tunnel, m);
    var t := Put(s, tunnel, m);
    forall k | k in t.maps ensures WellFormed(t, k) {
      if k != key {
        assert WellFormed(s, k);
        assert t.maps[k] == s.maps[k];
      }
    }
    forall k, l | k in t.maps && l in t.maps && k != l
      ensures !HasVlan(t.maps[k], t.maps[l].vlan) && !HasVni(t.maps[k], t.maps[l].vni)
    {
      if k == key {
        assert !HasVlan(s.maps[l], m.vlan) && !HasVni(s.maps[l], m.vni);
      } else if l == key {
        assert !HasVlan(s.maps[k], m.vlan) && !HasVni(s.maps[k], m.vni);
      }
    }
    assert key !in s.maps by { NewKey(s, tunnel, m); }
    forall v | HasLiveVni(t.vrfs, v) ensures IsMapped(t.maps, t.vrfs[v].value) {
      var k :| k in s.maps && HasVni(s.maps[k], s.vrfs[v].value);
      assert k in t.maps && t.maps[k] == s.maps[k];
    }
  }

  lemma NewKey(s: State, tunnel: string, m: Mapping)
    requires Invariant(s) && AllDigits(m.vni) && IsVlanName(m.vlan) && !IsMapped(s.maps, m.vni)
    ensures Key(tunnel, m) !in s.maps
  {
    forall k | k in s.maps ensures k != Key(tunnel, m) {
      assert WellFormed(s, k) && !HasVni(s.maps[k], m.vni);
      var t :| t in s.tunnels && k == Key(t, s.maps[k]);
      KeyInjective(tunnel, m, t, s.maps[k]);
    }
  }

  lemma AddOrSkipKeepsInvariant(s: State, tunnel: string, vlan: string, vni: string)
    requires Invariant(s)
    ensures Invariant(AddOrSkip(s, tunnel, vlan, vni))
  {
    if CanAddMap(s, tunnel, vlan, vni) {
      PutKeepsInvariant(s, tunnel, vlan, vni);
    }
  }

  lemma {:induction false} FoldKeepsInvariant(s: State, tunnel: string, vlanStart: nat, vniStart: nat, n: nat)
    requires Invariant(s)
    ensures Invariant(Fold(s, tunnel, vlanStart, vniStart, n))
  {
    if n > 0 {
      FoldKeepsInvariant(s, tunnel, vlanStart, vniStart, n - 1);
      AddOrSkipKeepsInvariant(Fold(s, tunnel, vlanStart, vniStart, n - 1), tunnel, Digits(vlanStart + n - 1),
        Digits(vniStart + n - 1));
    }
  }

  lemma DelMapKeepsInvariant(s: State, tunnel: string, vlan: string, vni: string)
    requires Invariant(s) && Can(s, DelMap(tunnel, vlan, vni))
    ensures Invariant(After(s, DelMap(tunnel, vlan, vni)))
  {
    var key := Key(tunnel, Mapping(VlanName(vlan), vni));
    var t := After(s, DelMap(tunnel, vlan, vni));
    forall k | k in t.maps ensures WellFormed(t, k) {
      assert WellFormed(s, k) && t.maps[k] == s.maps[k];
    }
    forall v | HasLiveVni(t.vrfs, v) ensures IsMapped(t.maps, t.vrfs[v].value) {
      var k :| k in s.maps && HasVni(s.maps[k], s.vrfs[v].value);
      if k == key {
        KeyTellsVni(s, tunnel, vlan, vni);
      }
      assert k in t.maps && t.maps[k] == s.maps[k];
    }
  }

  /** The entry that del_vxlan_map deletes has the VNI that it was given. */
  lemma KeyTellsVni(s: State, tunnel: string, vlan: string, vni: string)
    requires Invariant(s) && AllDigits(vlan) && AllDigits(vni)
    ensures var key := Key(tunnel, Mapping(VlanName(vlan), vni));
      key in s.maps ==> s.maps[key] == Mapping(VlanName(vlan), vni)
  {
    var m := Mapping(VlanName(vlan), vni);
    var key := Key(tunnel, m);
    if key in s.maps {
      var n := s.maps[key];
      assert WellFormed(s, key);
      var t :| t in s.tunnels && key == Key(t, n);
      assert '_' !in m.vlan && '_' !in m.vni;
      NoUnderscore(n);
      SameParts(tunnel + "|map" + "_" + m.vni, m.vlan, t + "|map" + "_" + n.vni, n.vlan);
      SameParts(tunnel + "|map", m.vni, t + "|map", n.vni);
    }
  }

  lemma DelVlanKeepsInvariant(s: State, vid: int, used: bool)
    requires Invariant(s) && Can(s, DelVlan(vid, used))
    ensures Invariant(After(s, DelVlan(vid, used)))
  {
    var t := After(s, DelVlan(vid, used));
    forall k | k in t.maps ensures WellFormed(t, k) {
      assert WellFormed(s, k);
      assert !HasVlan(s.maps[k], VlanName(Digits(vid)));
    }
  }

  lemma TunnelKeepsInvariant(s: State, c: Command)
    requires Invariant(s) && (c.AddTunnel? || c.DelTunnel?)
    ensures Invariant(After(s, c))
  {
    var t := After(s, c);
    forall k | k in t.maps ensures WellFormed(t, k) {
      assert WellFormed(s, k);
    }
    if c.DelTunnel? && Can(s, c) {
      assert |s.tunnels - {c.tunnel}| == |s.tunnels| - 1;
    }
  }

  lemma OnlyVrfs(s: State, t: State)
    requires Invariant(s) && t.vlans == s.vlans && t.tunnels == s.tunnels && t.maps == s.maps
    requires VrfsMapped(t) && VrfsApart(t.vrfs)
    ensures Invariant(t)
  {
    forall k | k in t.maps ensures WellFormed(t, k) {
      assert WellFormed(s, k);
    }
  }

  lemma VrfKeepsInvariant(s: State, c: Command)
    requires Invariant(s) && (c.AddVrf? || c.DelVrf? || c.DelVrfVni?)
    ensures Invariant(After(s, c))
  {
    var t := After(s, c);
    forall v | HasLiveVni(t.vrfs, v) ensures HasLiveVni(s.vrfs, v) && t.vrfs[v] == s.vrfs[v] {
    }
    OnlyVrfs(s, t);
  }

  lemma VrfVniKeepsInvariant(s: State, vrf: string, vni: string)
    requires Invariant(s) && Can(s, AddVrfVni(vrf, vni))
    ensures Invariant(After(s, AddVrfVni(vrf, vni)))
  {
    var t := After(s, AddVrfVni(vrf, vni));
    forall v | HasLiveVni(t.vrfs, v) && v != vrf ensures HasLiveVni(s.vrfs, v) && t.vrfs[v] == s.vrfs[v] {
    }
    assert forall v | v in s.vrfs :: s.vrfs[v] != Some(vni);
    OnlyVrfs(s, t);
  }

  lemma AddVlanKeepsInvariant(s: State, vid: int, relay: bool)
    requires Invariant(s) && Can(s, AddVlan(vid, relay))
    ensures Invariant(After(s, AddVlan(vid, relay)))
  {
    VlanNameOf(vid);
    forall k | k in s.maps ensures WellFormed(After(s, AddVlan(vid, relay)), k) {
      assert WellFormed(s, k);
    }
  }

  lemma CommandKeepsInvariant(s: State, c: Command)
    requires Invariant(s)
    ensures Invariant(After(s, c))
  {
    if Can(s, c) {
      match c
      case AddVlan(vid, relay) => AddVlanKeepsInvariant(s, vid, relay);
      case DelVlan(vid, used) => DelVlanKeepsInvariant(s, vid, used);
      case AddMap(tunnel, vlan, vni) => PutKeepsInvariant(s, tunnel, vlan, vni);
      case DelMap(tunnel, vlan, vni) => DelMapKeepsInvariant(s, tunnel, vlan, vni);
      case AddMapRange(tunnel, vlanStart, vlanEnd, vniStart) =>
        FoldKeepsInvariant(s, tunnel, vlanStart, vniStart, vlanEnd + 1 - vlanStart);
      case AddVrfVni(vrf, vni) => VrfVniKeepsInvariant(s, vrf, vni);
      case AddTunnel(_, _) => TunnelKeepsInvariant(s, c);
      case DelTunnel(_, _) => TunnelKeepsInvariant(s, c);
      case AddVrf(_) => VrfKeepsInvariant(s, c);
      case DelVrf(_, _) => VrfKeepsInvariant(s, c);
      case DelVrfVni(_) => VrfKeepsInvariant(s, c);
    }
  }

  /** Every reachable state: VLAN and VNI one-to-one, no dangling reference, no VNI on two VRFs. */
  lemma {:induction false} RunKeepsInvariant(commands: seq<Command>)
    ensures Invariant(AfterAll(EMPTY, commands))
  {
    if commands != [] {
      RunKeepsInvariant(commands[..|commands| - 1]);
      CommandKeepsInvariant(AfterAll(EMPTY, commands[..|commands| - 1]), commands[|commands| - 1]);
    }
  }

  /** A mapping that was just added can be deleted, and that brings back the tables as they were. */
  lemma MapUndone(s: State, tunnel: string, vlan: string, vni: string)
    requires Invariant(s) && CanAddMap(s, tunnel, vlan, vni)
    ensures var added := After(s, AddMap(tunnel, vlan, vni));
      Can(added, DelMap(tunnel, vlan, vni)) && After(added, DelMap(tunnel, vlan, vni)) == s
  {
    var m := Mapping(VlanName(vlan), vni);
    NewKey(s, tunnel, m);
    assert vni != "0" by { ZeroIsNoVni(); }
    assert forall v | v in s.vrfs && s.vrfs[v] == Some(vni) :: HasLiveVni(s.vrfs, v);
    assert s.maps[Key(tunnel, m) := m] - {Key(tunnel, m)} == s.maps;
  }

  lemma ZeroIsNoVni()
    ensures !IsVni("0")
  {
    assert "0"[..0] == "" && Value("0") == 0;
  }

  // ---------- What is refused, and what is done ----------

  /** A mapping is refused only for its texts, because it is there already, or because it would break what must
      always hold; an accepted one is added and nothing else changes.
   */
  lemma AddMapIff(s: State, tunnel: string, vlan: string, vni: string)
    requires Invariant(s)
    ensures
      var m := Mapping("Vlan" + vlan, vni);
      var t := s.(maps := s.maps[Key(tunnel, m) := m]);
      && (Can(s, AddMap(tunnel, vlan, vni)) <==>
            && AllDigits(vlan) && 1 <= Value(vlan) <= 4094 && AllDigits(vni) && 1 <= Value(vni) <= 16777215
            && Key(tunnel, m) !in s.maps && Invariant(t))
      && After(s, AddMap(tunnel, vlan, vni)) == if Can(s, AddMap(tunnel, vlan, vni)) then t else s
  {
    var m := Mapping("Vlan" + vlan, vni);
    var key := Key(tunnel, m);
    var t := s.(maps := s.maps[key := m]);
    if Can(s, AddMap(tunnel, vlan, vni)) {
      CommandKeepsInvariant(s, AddMap(tunnel, vlan, vni));
      CanonicalName(vlan);
      NewKey(s, tunnel, m);
    } else if AllDigits(vlan) && key !in s.maps && Invariant(t) {
      assert WellFormed(t, key);
      var u :| u in s.tunnels && key == Key(u, m);
      KeyInjective(tunnel, m, u, m);
      forall k | k in s.maps ensures !HasVlan(s.maps[k], m.vlan) && !HasVni(s.maps[k], m.vni) {
        assert !HasVlan(t.maps[k], t.maps[key].vlan) && !HasVni(t.maps[k], t.maps[key].vni);
      }
    }
  }

  lemma VrfNeedsVni(s: State, key: string)
    requires Invariant(s) && key in s.maps && VniOnVrf(s.vrfs, s.maps[key].vni)
    ensures !VrfsMapped(s.(maps := s.maps - {key}))
  {
    var vni := s.maps[key].vni;
    var t := s.(maps := s.maps - {key});
    var v :| v in s.vrfs && s.vrfs[v] == Some(vni);
    assert WellFormed(s, key);
    assert vni != "0" by { ZeroIsNoVni(); }
    assert HasLiveVni(t.vrfs, v);
    forall k | k in t.maps ensures !HasVni(t.maps[k], vni) {
      assert !HasVni(s.maps[k], s.maps[key].vni);
    }
    assert !IsMapped(t.maps, vni);
  }

  /** An existing mapping is kept only because its removal would leave a VRF with a VNI that is not mapped. */
  lemma DelMapIff(s: State, tunnel: string, vlan: string, vni: string)
    requires Invariant(s) && AllDigits(vlan) && 1 <= Value(vlan) <= 4094 && AllDigits(vni)
    requires Key(tunnel, Mapping("Vlan" + vlan, vni)) in s.maps
    ensures
      var t := s.(maps := s.maps - {Key(tunnel, Mapping("Vlan" + vlan, vni))});
      && (Can(s, DelMap(tunnel, vlan, vni)) <==> Invariant(t))
      && After(s, DelMap(tunnel, vlan, vni)) == if Can(s, DelMap(tunnel, vlan, vni)) then t else s
  {
    var m := Mapping("Vlan" + vlan, vni);
    KeyTellsVni(s, tunnel, vlan, vni);
    MappedTunnel(s, tunnel, m);
    if Can(s, DelMap(tunnel, vlan, vni)) {
      DelMapKeepsInvariant(s, tunnel, vlan, vni);
    } else {
      VrfNeedsVni(s, Key(tunnel, m));
    }
  }

  lemma MappedTunnel(s: State, tunnel: string, m: Mapping)
    requires Invariant(s) && Key(tunnel, m) in s.maps && s.maps[Key(tunnel, m)] == m
    ensures tunnel in s.tunnels && IsVni(m.vni)
  {
    assert WellFormed(s, Key(tunnel, m));
    var u :| u in s.tunnels && Key(tunnel, m) == Key(u, m);
    KeyInjective(tunnel, m, u, m);
  }

  lemma TunnelIff(s: State, tunnel: string, flag: bool)
    requires Invariant(s)
    ensures
      var t := s.(tunnels := s.tunnels + {tunnel});
      && (Can(s, AddTunnel(tunnel, flag)) <==> flag && tunnel !in s.tunnels && Invariant(t))
      && After(s, AddTunnel(tunnel, flag)) == if Can(s, AddTunnel(tunnel, flag)) then t else s
    ensures
      var t := s.(tunnels := s.tunnels - {tunnel});
      && (Can(s, DelTunnel(tunnel, flag)) <==> tunnel in s.tunnels && !flag && Invariant(t))
      && After(s, DelTunnel(tunnel, flag)) == if Can(s, DelTunnel(tunnel, flag)) then t else s
  {
    CommandKeepsInvariant(s, AddTunnel(tunnel, flag));
    CommandKeepsInvariant(s, DelTunnel(tunnel, flag));
    if tunnel !in s.tunnels {
      assert |s.tunnels + {tunnel}| == |s.tunnels| + 1;
    } else {
      assert |s.tunnels - {tunnel}| == |s.tunnels| - 1;
      assert s.tunnels - {tunnel} == {};
      if k :| k in s.maps {
        assert !WellFormed(s.(tunnels := s.tunnels - {tunnel}), k);
      }
    }
  }

  /** A VRF is refused a VNI only for its text, because it has it already, or because the VNI is not mapped or is on
      another VRF.
   */
  lemma AddVrfVniIff(s: State, vrf: string, vni: string)
    requires Invariant(s)
    ensures
      var t := s.(vrfs := s.vrfs[vrf := Some(vni)]);
      && (Can(s, AddVrfVni(vrf, vni)) <==>
            && vrf in s.vrfs && s.vrfs[vrf] != Some(vni)
            && AllDigits(vni) && 1 <= Value(vni) <= 16777215 && Invariant(t))
      && After(s, AddVrfVni(vrf, vni)) == if Can(s, AddVrfVni(vrf, vni)) then t else s
  {
    var t := s.(vrfs := s.vrfs[vrf := Some(vni)]);
    CommandKeepsInvariant(s, AddVrfVni(vrf, vni));
    if !Can(s, AddVrfVni(vrf, vni)) && vrf in s.vrfs && IsVni(vni) && Invariant(t) {
      assert vni != "0" by { ZeroIsNoVni(); }
      assert HasLiveVni(t.vrfs, vrf) && IsMapped(t.maps, t.vrfs[vrf].value);
      var v :| v in s.vrfs && s.vrfs[v] == Some(vni);
      if v != vrf {
        assert HasLiveVni(t.vrfs, v);
        assert false;
      }
    }
  }

  /** An existing VLAN that nothing else uses stays only because a mapping names it. */
  lemma DelVlanIff(s: State, vid: int, used: bool)
    requires Invariant(s) && 1 <= vid <= 4094
    ensures
      var name := "Vlan" + Digits(vid);
      var t := s.(vlans := s.vlans - {name});
      && (Can(s, DelVlan(vid, used)) <==> name in s.vlans && !used && Invariant(t))
      && After(s, DelVlan(vid, used)) == if Can(s, DelVlan(vid, used)) then t else s
  {
    var name := "Vlan" + Digits(vid);
    CommandKeepsInvariant(s, DelVlan(vid, used));
    if VlanTaken(s.maps, name) {
      var k :| k in s.maps && HasVlan(s.maps[k], name);
      assert !WellFormed(s.(vlans := s.vlans - {name}), k);
    }
  }

  /** A VRF is added exactly for a new name of at most 15 characters that starts with Vrf, without a VNI; one that is
      not used goes; and its VNI becomes 0.
   */
  lemma VrfIff(s: State, vrf: string, used: bool)
    ensures After(s, AddVrf(vrf)) ==
      if vrf !in s.vrfs && 3 <= |vrf| <= 15 && vrf[..3] == "Vrf" then s.(vrfs := s.vrfs[vrf := None]) else s
    ensures vrf in s.vrfs && 3 <= |vrf| <= 15 && vrf[..3] == "Vrf" ==>
      After(s, DelVrf(vrf, used)) == if used then s else s.(vrfs := s.vrfs - {vrf})
    ensures After(s, DelVrfVni(vrf)) == if vrf in s.vrfs then s.(vrfs := s.vrfs[vrf := Some("0")]) else s
  {
  }

  /** A range is refused exactly if an end is no VLAN id or VNI, the ends are the wrong way round, or there is no such
      tunnel.
   */
  lemma AddMapRangeIff(s: State, tunnel: string, vlanStart: int, vlanEnd: int, vniStart: int)
    ensures Can(s, AddMapRange(tunnel, vlanStart, vlanEnd, vniStart)) <==>
      && 1 <= vlanStart <= vlanEnd <= 4094 && 1 <= vniStart && vniStart + (vlanEnd - vlanStart) <= 16777215
      && tunnel in s.tunnels
    ensures Can(s, AddMapRange(tunnel, vlanStart, vlanEnd, vniStart)) ==>
      After(s, AddMapRange(tunnel, vlanStart, vlanEnd, vniStart))
        == Fold(s, tunnel, vlanStart, vniStart, vlanEnd - vlanStart + 1)
  {
  }

  /** The mapping that the range gives to its i-th VLAN, if that exists and both are free */
  predicate WantedAt(s: State, m: Mapping, vlanStart: nat, vniStart: nat, i: nat) {
    && m == Mapping("Vlan" + Digits(vlanStart + i), Digits(vniStart + i)) && m.vlan in s.vlans
    && forall k | k in s.maps :: s.maps[k].vlan != m.vlan && s.maps[k].vni != m.vni
  }

  ghost predicate Wanted(s: State, m: Mapping, vlanStart: nat, vniStart: nat, n: nat) {
    exists i: nat | i < n :: WantedAt(s, m, vlanStart, vniStart, i)
  }

  lemma WantedStep(s: State, m: Mapping, vlanStart: nat, vniStart: nat, n: nat)
    ensures Wanted(s, m, vlanStart, vniStart, n + 1) <==>
      Wanted(s, m, vlanStart, vniStart, n) || WantedAt(s, m, vlanStart, vniStart, n)
  {
    if Wanted(s, m, vlanStart, vniStart, n) {
      var i: nat :| i < n && WantedAt(s, m, vlanStart, vniStart, i);
    }
  }

  /** One step adds its mapping, if that is wanted, under a key that is not there yet. */
  lemma RangeStepMaps(s: State, tunnel: string, vlanStart: nat, vniStart: nat, i: nat)
    requires Invariant(s) && tunnel in s.tunnels && ValidVlan(vlanStart + i) && ValidVni(vniStart + i)
    ensures
      var now, next := Fold(s, tunnel, vlanStart, vniStart, i), Fold(s, tunnel, vlanStart, vniStart, i + 1);
      var m := Mapping("Vlan" + Digits(vlanStart + i), Digits(vniStart + i));
      if WantedAt(s, m, vlanStart, vniStart, i)
      then Key(tunnel, m) !in now.maps && next.maps == now.maps[Key(tunnel, m) := m] else next == now
  {
    var now := Fold(s, tunnel, vlanStart, vniStart, i);
    var m := Mapping(VlanName(Digits(vlanStart + i)), Digits(vniStart + i));
    RangeStep(s, tunnel, vlanStart, vniStart, i);
    FoldKeepsInvariant(s, tunnel, vlanStart, vniStart, i);
    SnapshotSuffices(s, tunnel, vlanStart, vniStart, i);
    VlanNameOf(vlanStart + i);
    if WantedAt(s, m, vlanStart, vniStart, i) {
      NewKey(now, tunnel, m);
    } else if m.vlan in s.vlans {
      var k :| k in s.maps && (s.maps[k].vlan == m.vlan || s.maps[k].vni == m.vni);
      assert HasVlan(s.maps[k], m.vlan) || HasVni(s.maps[k], m.vni);
    }
  }

  lemma OneMoreAt(now: map<string, Mapping>, next: map<string, Mapping>, key: string, x: Mapping, added: bool,
                  k: string, m: Mapping)
    requires if added then key !in now && next == now[key := x] else next == now
    ensures Lookup(next, k) == Some(m) <==> Lookup(now, k) == Some(m) || (added && m == x && k == key)
  {
  }

  lemma NothingWanted(s: State, m: Mapping, vlanStart: nat, vniStart: nat)
    ensures !Wanted(s, m, vlanStart, vniStart, 0)
  {
  }

  /** The key leads to the mapping after n steps of the range. */
  ghost predicate HasAfter(s: State, tunnel: string, vlanStart: nat, vniStart: nat, n: nat, k: string, m: Mapping) {
    Lookup(Fold(s, tunnel, vlanStart, vniStart, n).maps, k) == Some(m)
  }

  lemma LastOfRange(s: State, tunnel: string, vlanStart: nat, vniStart: nat, i: nat, k: string, m: Mapping)
    requires Invariant(s) && tunnel in s.tunnels && ValidVlan(vlanStart + i) && ValidVni(vniStart + i)
    ensures
      HasAfter(s, tunnel, vlanStart, vniStart, i + 1, k, m) <==>
        || HasAfter(s, tunnel, vlanStart, vniStart, i, k, m)
        || (k == Key(tunnel, m) && WantedAt(s, m, vlanStart, vniStart, i))
  {
    var now, next := Fold(s, tunnel, vlanStart, vniStart, i).maps, Fold(s, tunnel, vlanStart, vniStart, i + 1).maps;
    var x := Mapping("Vlan" + Digits(vlanStart + i), Digits(vniStart + i));
    RangeStepMaps(s, tunnel, vlanStart, vniStart, i);
    OneMoreAt(now, next, Key(tunnel, x), x, WantedAt(s, x, vlanStart, vniStart, i), k, m);
  }

  /** The range adds exactly the mappings of its VLANs that exist and are free, with VNIs that are free: for every key
      and every mapping.
   */
  lemma {:induction false} RangeMaps(s: State, tunnel: string, vlanStart: nat, vniStart: nat, n: nat, k: string,
                                     m: Mapping)
    requires Invariant(s) && tunnel in s.tunnels
    requires 1 <= vlanStart && vlanStart + n <= 4095 && 1 <= vniStart && vniStart + n <= 16777216
    ensures HasAfter(s, tunnel, vlanStart, vniStart, n, k, m) <==>
      Lookup(s.maps, k) == Some(m) || (k == Key(tunnel, m) && Wanted(s, m, vlanStart, vniStart, n))
    decreases n
  {
    if n == 0 {
      NothingWanted(s, m, vlanStart, vniStart);
    } else {
      var i := n - 1;
      RangeMaps(s, tunnel, vlanStart, vniStart, i, k, m);
      WantedStep(s, m, vlanStart, vniStart, i);
      LastOfRange(s, tunnel, vlanStart, vniStart, i, k, m);
      assert i + 1 == n;
    }
  }

  // ---------- Numbers rather than texts ----------

  /** No two entries share the number of their VNI. */
  predicate NumbersApart(maps: map<string, Mapping>) {
    forall k, l | k in maps && l in maps && k != l && AllDigits(maps[k].vni) && AllDigits(maps[l].vni) ::
      Value(maps[k].vni) != Value(maps[l].vni)
  }

  predicate AllCanonical(maps: map<string, Mapping>) {
    forall k | k in maps :: Canonical(maps[k].vni)
  }

  /** While VNIs are written without leading zeros, they differ as numbers and not only as texts. */
  lemma CanonicalNumbersApart(s: State)
    requires Invariant(s) && AllCanonical(s.maps)
    ensures NumbersApart(s.maps)
  {
    forall k, l | k in s.maps && l in s.maps && k != l ensures Value(s.maps[k].vni) != Value(s.maps[l].vni) {
      assert !HasVni(s.maps[k], s.maps[l].vni);
      CanonicalInjective(s.maps[k].vni, s.maps[l].vni);
    }
  }

  ghost predicate KeepsNumbersApart(s: State, c: Command)
    requires c.AddMap?
  {
    Can(s, c) ==> NumbersApart(After(s, c).maps)
  }

  /** A written VNI is safe with whatever is mapped already exactly when it has no leading zero, or when the VLAN
      has one, so that no such VLAN exists.
   */
  lemma SafeIffCanonical(tunnel: string, vlan: string, vni: string)
    requires IsVlanId(vlan) && IsVni(vni)
    ensures Canonical(vni) || !Canonical(vlan) <==>
      (forall s | Invariant(s) && AllCanonical(s.maps) :: KeepsNumbersApart(s, AddMap(tunnel, vlan, vni)))
  {
    var c := AddMap(tunnel, vlan, vni);
    if !Canonical(vni) && Canonical(vlan) {
      var s := LeadingZeroClashes(tunnel, vlan, vni);
      assert !KeepsNumbersApart(s, c);
    } else {
      assert VlanName(vlan)[4..] == vlan;
      forall s | Invariant(s) && AllCanonical(s.maps) ensures KeepsNumbersApart(s, c) {
        if Can(s, c) {
          assert IsVlanName(VlanName(vlan));
          CommandKeepsInvariant(s, c);
          CanonicalNumbersApart(After(s, c));
        }
      }
    }
  }

  /** A table in which another VLAN has the same number, written without the zeros */
  lemma LeadingZeroClashes(tunnel: string, vlan: string, vni: string) returns (s: State)
    requires IsVlanId(vlan) && Canonical(vlan) && IsVni(vni) && !Canonical(vni)
    ensures Invariant(s) && AllCanonical(s.maps) && !KeepsNumbersApart(s, AddMap(tunnel, vlan, vni))
  {
    var other := if vlan == "2" then "3" else "2";
    var m := Mapping(VlanName(other), Digits(Value(vni)));
    DigitsCanonical(Value(vni));
    ValueOfDigits(Value(vni));
    VlanNameInjective(other, vlan);
    CanonicalName(other);
    CanonicalName(vlan);
    s := OneEntry(tunnel, m, VlanName(vlan));
    SameNumberClashes(s, tunnel, m, vlan, vni);
  }

  /** The VNI of the only entry, written in another way, is accepted for another VLAN. */
  lemma SameNumberClashes(s: State, tunnel: string, m: Mapping, vlan: string, vni: string)
    requires s == State({m.vlan, VlanName(vlan)}, {tunnel}, map[Key(tunnel, m) := m], map[])
    requires IsVlanId(vlan) && IsVni(vni) && m.vlan != VlanName(vlan) && m.vni != vni && AllDigits(m.vni)
    requires Value(m.vni) == Value(vni) && IsVlanName(m.vlan) && IsVlanName(VlanName(vlan))
    ensures !KeepsNumbersApart(s, AddMap(tunnel, vlan, vni))
  {
    var n := Mapping(VlanName(vlan), vni);
    KeyInjective(tunnel, m, tunnel, n);
    assert CanAddMap(s, tunnel, vlan, vni);
    var t := Put(s, tunnel, n);
    assert t.maps[Key(tunnel, m)] == m && t.maps[Key(tunnel, n)] == n;
  }

  lemma CanonicalName(vid: string)
    ensures IsVlanName(VlanName(vid)) <==> Canonical(vid)
  {
    assert VlanName(vid)[..4] == "Vlan" && VlanName(vid)[4..] == vid;
  }

  lemma OneEntry(tunnel: string, m: Mapping, vlan: string) returns (s: State)
    requires IsVni(m.vni) && IsVlanName(m.vlan) && IsVlanName(vlan)
    ensures s == State({m.vlan, vlan}, {tunnel}, map[Key(tunnel, m) := m], map[]) && Invariant(s)
  {
    s := State({m.vlan, vlan}, {tunnel}, map[Key(tunnel, m) := m], map[]);
    forall k | k in s.maps ensures WellFormed(s, k) {
    }
  }

  // ---------- The commands as they run ----------

  class VniConfig {
    /** VLAN, VXLAN_TUNNEL, VXLAN_TUNNEL_MAP and VRF */
    var vlans: set<string>
    var tunnels: set<string>
    var maps: map<string, Mapping>
    var vrfs: map<string, Option<string>>

    constructor ()
      ensures Tables() == EMPTY
    {
      vlans, tunnels, maps, vrfs := {}, {}, map[], map[];
    }

    function Tables(): State
      reads this
    {
      State(vlans, tunnels, maps, vrfs)
    }

    method AddVlanCommand(vid: int, relay: bool) returns (ok: bool)
      modifies this`vlans
      ensures ok <==> Can(old(Tables()), AddVlan(vid, relay))
      ensures Tables() == After(old(Tables()), AddVlan(vid, relay))
    {
      if !ValidVlan(vid) || vid == 1 {
        return false;
      }
      var name := VlanName(Digits(vid));
      if name in vlans || relay {
        return false;
      }
      vlans := vlans + {name};
      ok := true;
    }

    method DelVlanCommand(vid: int, used: bool) returns (ok: bool)
      modifies this`vlans
      ensures ok <==> Can(old(Tables()), DelVlan(vid, used))
      ensures Tables() == After(old(Tables()), DelVlan(vid, used))
    {
      if !ValidVlan(vid) {
        return false;
      }
      var name := VlanName(Digits(vid));
      if name !in vlans || used {
        return false;
      }
      var taken := FindVlan(name);
      if taken {
        return false;
      }
      vlans := vlans - {name};
      ok := true;
    }

    /** The scan of the map table for the VLAN */
    method FindVlan(name: string) returns (taken: bool)
      ensures taken <==> VlanTaken(maps, name)
    {
      var todo := maps.Keys;
      while todo != {}
        invariant todo <= maps.Keys && forall k | k in maps && k !in todo :: !HasVlan(maps[k], name)
      {
        var k :| k in todo;
        if maps[k].vlan == name {
          assert HasVlan(maps[k], name);
          return true;
        }
        todo := todo - {k};
      }
      taken := false;
    }

    method AddTunnelCommand(tunnel: string, validAddress: bool) returns (ok: bool)
      modifies this`tunnels
      ensures ok <==> Can(old(Tables()), AddTunnel(tunnel, validAddress))
      ensures Tables() == After(old(Tables()), AddTunnel(tunnel, validAddress))
    {
      if !validAddress || |tunnels| > 0 {
        return false;
      }
      tunnels := tunnels + {tunnel};
      ok := true;
    }

    method DelTunnelCommand(tunnel: string, referenced: bool) returns (ok: bool)
      modifies this`tunnels
      ensures ok <==> Can(old(Tables()), DelTunnel(tunnel, referenced))
      ensures Tables() == After(old(Tables()), DelTunnel(tunnel, referenced))
    {
      if tunnel !in tunnels || |maps| > 0 || referenced {
        assert maps == map[] ==> |maps| == 0;
        return false;
      }
      tunnels := tunnels - {tunnel};
      ok := true;
    }

    method AddMapCommand(tunnel: string, vlan: string, vni: string) returns (ok: bool)
      modifies this`maps
      ensures ok <==> Can(old(Tables()), AddMap(tunnel, vlan, vni))
      ensures Tables() == After(old(Tables()), AddMap(tunnel, vlan, vni))
    {
      if !AllDigits(vlan) || !ValidVlan(Value(vlan)) || !AllDigits(vni) || !ValidVni(Value(vni)) {
        return false;
      }
      var vlanName := VlanName(vlan);
      if tunnel !in tunnels || vlanName !in vlans {
        return false;
      }
      var mapped := MatchFound(maps, vlanName, vni);
      if mapped {
        return false;
      }
      WriteMap(tunnel, Mapping(vlanName, vni));
      ok := true;
    }

    method DelMapCommand(tunnel: string, vlan: string, vni: string) returns (ok: bool)
      requires Invariant(Tables())
      modifies this`maps
      ensures ok <==> Can(old(Tables()), DelMap(tunnel, vlan, vni))
      ensures Tables() == After(old(Tables()), DelMap(tunnel, vlan, vni))
    {
      if !AllDigits(vlan) || !ValidVlan(Value(vlan)) || !AllDigits(vni) || !ValidVni(Value(vni)) || tunnel !in tunnels {
        return false;
      }
      var found := FindVrf(vni);
      if found {
        return false;
      }
      assert Key(tunnel, Mapping(vlan, vni)) !in maps by { BareNameMisses(Tables(), tunnel, vlan, vni); }
      maps := maps - {Key(tunnel, Mapping(vlan, vni))};
      assert maps == old(maps);
      maps := maps - {Key(tunnel, Mapping(VlanName(vlan), vni))};
      ok := true;
    }

    /** The scan of the VRF table for the VNI */
    method FindVrf(vni: string) returns (found: bool)
      ensures found <==> VniOnVrf(vrfs, vni)
    {
      var todo := vrfs.Keys;
      while todo != {}
        invariant todo <= vrfs.Keys && forall v | v in vrfs && v !in todo :: vrfs[v] != Some(vni)
      {
        var v :| v in todo;
        if vrfs[v] == Some(vni) {
          return true;
        }
        todo := todo - {v};
      }
      found := false;
    }

    method AddMapRangeCommand(tunnel: string, vlanStart: int, vlanEnd: int, vniStart: int) returns (ok: bool)
      requires Invariant(Tables())
      modifies this`maps
      ensures ok <==> Can(old(Tables()), AddMapRange(tunnel, vlanStart, vlanEnd, vniStart))
      ensures Tables() == After(old(Tables()), AddMapRange(tunnel, vlanStart, vlanEnd, vniStart))
    {
      if !ValidVlan(vlanStart) || !ValidVlan(vlanEnd) || vlanStart > vlanEnd || !ValidVni(vniStart)
        || !ValidVni(vniStart + vlanEnd - vlanStart) {
        return false;
      }
      if tunnel !in tunnels {
        return false;
      }
      AddRange(tunnel, vlanStart, vlanEnd, vniStart);
      ok := true;
    }

    /** Each VLAN is compared with the map table as it was before the first write. */
    method AddRange(tunnel: string, vlanStart: int, vlanEnd: int, vniStart: int)
      requires Invariant(Tables()) && tunnel in tunnels && ValidVlan(vlanStart) && ValidVlan(vlanEnd)
        && vlanStart <= vlanEnd
      requires ValidVni(vniStart) && ValidVni(vniStart + vlanEnd - vlanStart)
      modifies this`maps
      ensures Tables() == Fold(old(Tables()), tunnel, vlanStart, vniStart, vlanEnd + 1 - vlanStart)
    {
      ghost var before := Tables();
      var snapshot := maps;
      for i := 0 to vlanEnd + 1 - vlanStart
        invariant Tables() == Fold(before, tunnel, vlanStart, vniStart, i)
      {
        RangeStep(before, tunnel, vlanStart, vniStart, i);
        var m := Mapping(VlanName(Digits(vlanStart + i)), Digits(vniStart + i));
        if m.vlan in vlans {
          var matchFound := MatchFound(snapshot, m.vlan, m.vni);
          if !matchFound {
            WriteMap(tunnel, m);
          }
        }
      }
    }

    /** set_entry of one mapping */
    method WriteMap(tunnel: string, m: Mapping)
      modifies this`maps
      ensures Tables() == Put(old(Tables()), tunnel, m)
    {
      maps := maps[Key(tunnel, m) := m];
    }

    method AddVrfCommand(vrf: string) returns (ok: bool)
      modifies this`vrfs
      ensures ok <==> Can(old(Tables()), AddVrf(vrf))
      ensures Tables() == After(old(Tables()), AddVrf(vrf))
    {
      if !IsVrfName(vrf) || vrf in vrfs {
        return false;
      }
      vrfs := vrfs[vrf := None];
      ok := true;
    }

    method DelVrfCommand(vrf: string, used: bool) returns (ok: bool)
      modifies this`vrfs
      ensures ok <==> Can(old(Tables()), DelVrf(vrf, used))
      ensures Tables() == After(old(Tables()), DelVrf(vrf, used))
    {
      if !IsVrfName(vrf) || used || vrf !in vrfs {
        return false;
      }
      vrfs := vrfs - {vrf};
      ok := true;
    }

    method AddVrfVniCommand(vrf: string, vni: string) returns (ok: bool)
      modifies this`vrfs
      ensures ok <==> Can(old(Tables()), AddVrfVni(vrf, vni))
      ensures Tables() == After(old(Tables()), AddVrfVni(vrf, vni))
    {
      if vrf !in vrfs || !AllDigits(vni) || !ValidVni(Value(vni)) {
        return false;
      }
      var mapped := FindVni(vni);
      if !mapped {
        return false;
      }
      var found := FindVrf(vni);
      if found {
        return false;
      }
      vrfs := vrfs[vrf := Some(vni)];
      ok := true;
    }

    /** The scan of the map table for the VNI */
    method FindVni(vni: string) returns (found: bool)
      ensures found <==> IsMapped(maps, vni)
    {
      var todo := maps.Keys;
      while todo != {}
        invariant todo <= maps.Keys && forall k | k in maps && k !in todo :: !HasVni(maps[k], vni)
      {
        var k :| k in todo;
        if maps[k].vni == vni {
          assert HasVni(maps[k], vni);
          return true;
        }
        todo := todo - {k};
      }
      found := false;
    }

    method DelVrfVniCommand(vrf: string) returns (ok: bool)
      modifies this`vrfs
      ensures ok <==> Can(old(Tables()), DelVrfVni(vrf))
      ensures Tables() == After(old(Tables()), DelVrfVni(vrf))
    {
      if vrf !in vrfs {
        return false;
      }
      vrfs := vrfs[vrf := Some("0")];
      ok := true;
    }

    /** One command line */
    method Execute(c: Command) returns (ok: bool)
      requires Invariant(Tables())
      modifies this
      ensures ok <==> Can(old(Tables()), c)
      ensures Tables() == After(old(Tables()), c) && Invariant(Tables())
    {
      CommandKeepsInvariant(Tables(), c);
      match c
      case AddVlan(vid, relay) => ok := AddVlanCommand(vid, relay);
      case DelVlan(vid, used) => ok := DelVlanCommand(vid, used);
      case AddTunnel(tunnel, validAddress) => ok := AddTunnelCommand(tunnel, validAddress);
      case DelTunnel(tunnel, referenced) => ok := DelTunnelCommand(tunnel, referenced);
      case AddMap(tunnel, vlan, vni) => ok := AddMapCommand(tunnel, vlan, vni);
      case DelMap(tunnel, vlan, vni) => ok := DelMapCommand(tunnel, vlan, vni);
      case AddMapRange(tunnel, vlanStart, vlanEnd, vniStart) =>
        ok := AddMapRangeCommand(tunnel, vlanStart, vlanEnd, vniStart);
      case AddVrf(vrf) => ok := AddVrfCommand(vrf);
      case DelVrf(vrf, used) => ok := DelVrfCommand(vrf, used);
      case AddVrfVni(vrf, vni) => ok := AddVrfVniCommand(vrf, vni);
      case DelVrfVni(vrf) => ok := DelVrfVniCommand(vrf);
    }
  }

  /** Whether some entry has the VLAN or the VNI */
  method MatchFound(table: map<string, Mapping>, vlan: string, vni: string) returns (found: bool)
    ensures found <==> VlanTaken(table, vlan) || IsMapped(table, vni)
  {
    var todo := table.Keys;
    while todo != {}
      invariant todo <= table.Keys && forall k | k in table && k !in todo ::
        !HasVlan(table[k], vlan) && !HasVni(table[k], vni)
    {
      var k :| k in todo;
      if table[k].vlan == vlan {
        assert HasVlan(table[k], vlan);
        return true;
      }
      if table[k].vni == vni {
        assert HasVni(table[k], vni);
        return true;
      }
      todo := todo - {k};
    }
    found := false;
  }

  predicate Extends(t: State, s: State) {
    t == s.(maps := t.maps) && forall k | k in s.maps :: k in t.maps && t.maps[k] == s.maps[k]
  }

  lemma AddOrSkipExtends(s: State, tunnel: string, vlan: nat, vni: string)
    requires Invariant(s)
    ensures Extends(AddOrSkip(s, tunnel, Digits(vlan), vni), s)
  {
    VlanNameOf(vlan);
    if CanAddMap(s, tunnel, Digits(vlan), vni) {
      NewKey(s, tunnel, Mapping(VlanName(Digits(vlan)), vni));
    }
  }

  lemma {:induction false} FoldExtends(s: State, tunnel: string, vlanStart: nat, vniStart: nat, n: nat)
    requires Invariant(s)
    ensures Extends(Fold(s, tunnel, vlanStart, vniStart, n), s)
  {
    if n > 0 {
      FoldExtends(s, tunnel, vlanStart, vniStart, n - 1);
      FoldKeepsInvariant(s, tunnel, vlanStart, vniStart, n - 1);
      StepExtends(s, Fold(s, tunnel, vlanStart, vniStart, n - 1), tunnel, vlanStart + n - 1, Digits(vniStart + n - 1));
    }
  }

  lemma StepExtends(s: State, t: State, tunnel: string, vlan: nat, vni: string)
    requires Extends(t, s) && Invariant(t)
    ensures Extends(AddOrSkip(t, tunnel, Digits(vlan), vni), s)
  {
    AddOrSkipExtends(t, tunnel, vlan, vni);
    ExtendsAgain(AddOrSkip(t, tunnel, Digits(vlan), vni), t, s);
  }

  lemma ExtendsAgain(u: State, t: State, s: State)
    requires Extends(u, t) && Extends(t, s)
    ensures Extends(u, s)
  {
  }

  /** The entries of the range so far are added to those of the table. */
  lemma {:induction false} FoldAdds(s: State, tunnel: string, vlanStart: nat, vniStart: nat, n: nat)
    ensures var maps := Fold(s, tunnel, vlanStart, vniStart, n).maps;
      forall k | k in maps :: (k in s.maps && maps[k] == s.maps[k]) || AddedBefore(maps[k], vlanStart, vniStart, n)
  {
    if n > 0 {
      FoldAdds(s, tunnel, vlanStart, vniStart, n - 1);
      var before := Fold(s, tunnel, vlanStart, vniStart, n - 1).maps;
      var maps := Fold(s, tunnel, vlanStart, vniStart, n).maps;
      forall k | k in maps && !(k in s.maps && maps[k] == s.maps[k])
        ensures AddedBefore(maps[k], vlanStart, vniStart, n)
      {
        if k in before && before[k] == maps[k] {
          AddedSooner(maps[k], vlanStart, vniStart, n - 1);
        } else {
          assert AddedAt(maps[k], vlanStart, vniStart, n - 1);
        }
      }
    }
  }

  lemma AddedSooner(m: Mapping, vlanStart: nat, vniStart: nat, n: nat)
    requires AddedBefore(m, vlanStart, vniStart, n)
    ensures AddedBefore(m, vlanStart, vniStart, n + 1)
  {
    var i: nat :| i < n && AddedAt(m, vlanStart, vniStart, i);
    assert AddedAt(m, vlanStart, vniStart, i);
  }

  lemma AddedDiffers(m: Mapping, vlanStart: nat, vniStart: nat, n: nat)
    requires AddedBefore(m, vlanStart, vniStart, n)
    ensures !HasVlan(m, VlanName(Digits(vlanStart + n))) && !HasVni(m, Digits(vniStart + n))
  {
    var i: nat :| i < n && AddedAt(m, vlanStart, vniStart, i);
    var a, b, c, d := vlanStart + i, vlanStart + n, vniStart + i, vniStart + n;
    assert m == Mapping(VlanName(Digits(a)), Digits(c));
    NumeralsDiffer(a, b);
    NumeralsDiffer(c, d);
  }

  lemma NumeralsDiffer(a: nat, b: nat)
    requires a != b
    ensures Digits(a) != Digits(b) && VlanName(Digits(a)) != VlanName(Digits(b))
  {
    DigitsInjective(a, b);
    VlanNameInjective(Digits(a), Digits(b));
  }

  lemma ExtendsKeeps(t: State, s: State, vlan: string, vni: string)
    requires Extends(t, s)
    ensures VlanTaken(s.maps, vlan) ==> VlanTaken(t.maps, vlan)
    ensures IsMapped(s.maps, vni) ==> IsMapped(t.maps, vni)
  {
    if VlanTaken(s.maps, vlan) {
      var k :| k in s.maps && HasVlan(s.maps[k], vlan);
      assert HasVlan(t.maps[k], vlan);
    }
    if IsMapped(s.maps, vni) {
      var k :| k in s.maps && HasVni(s.maps[k], vni);
      assert HasVni(t.maps[k], vni);
    }
  }

  /** Comparing with the table before the first write gives the answer of comparing with the current one. */
  lemma SnapshotSuffices(s: State, tunnel: string, vlanStart: nat, vniStart: nat, i: nat)
    requires Invariant(s)
    ensures
      var now := Fold(s, tunnel, vlanStart, vniStart, i).maps;
      var (vlan, vni) := (VlanName(Digits(vlanStart + i)), Digits(vniStart + i));
      (VlanTaken(now, vlan) <==> VlanTaken(s.maps, vlan)) && (IsMapped(now, vni) <==> IsMapped(s.maps, vni))
  {
    var now := Fold(s, tunnel, vlanStart, vniStart, i);
    var (vlan, vni) := (VlanName(Digits(vlanStart + i)), Digits(vniStart + i));
    FoldExtends(s, tunnel, vlanStart, vniStart, i);
    ExtendsKeeps(now, s, vlan, vni);
    FoldAdds(s, tunnel, vlanStart, vniStart, i);
    forall k | k in now.maps && (HasVlan(now.maps[k], vlan) || HasVni(now.maps[k], vni))
      ensures k in s.maps && s.maps[k] == now.maps[k]
    {
      if AddedBefore(now.maps[k], vlanStart, vniStart, i) {
        AddedDiffers(now.maps[k], vlanStart, vniStart, i);
      }
    }
  }

  /** What the loop over the range does for one VLAN, which compares with the table before the first write. */
  lemma RangeStep(s: State, tunnel: string, vlanStart: nat, vniStart: nat, i: nat)
    requires Invariant(s) && tunnel in s.tunnels && ValidVlan(vlanStart + i) && ValidVni(vniStart + i)
    ensures
      var now := Fold(s, tunnel, vlanStart, vniStart, i);
      var m := Mapping(VlanName(Digits(vlanStart + i)), Digits(vniStart + i));
      && now == s.(maps := now.maps)
      && Fold(s, tunnel, vlanStart, vniStart, i + 1)
         == if m.vlan in s.vlans && !VlanTaken(s.maps, m.vlan) && !IsMapped(s.maps, m.vni)
            then Put(now, tunnel, m) else now
  {
    SnapshotSuffices(s, tunnel, vlanStart, vniStart, i);
    FoldExtends(s, tunnel, vlanStart, vniStart, i);
    ValueOfDigits(vlanStart + i);
    ValueOfDigits(vniStart + i);
  }

  predicate AddedAt(m: Mapping, vlanStart: nat, vniStart: nat, i: nat) {
    m == Mapping(VlanName(Digits(vlanStart + i)), Digits(vniStart + i))
  }

  predicate AddedBefore(m: Mapping, vlanStart: nat, vniStart: nat, n: nat) {
    exists i: nat | i < n :: AddedAt(m, vlanStart, vniStart, i)
  }
}
