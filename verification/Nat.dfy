/** The static NAT and NAPT tables, the dynamic pools and their bindings. */
module Nat {
  import opened JsonTree

  // ---------- Tables ----------

  datatype NatType = Snat | Dnat

  /** <ip>, or <ip>|<protocol>|<port> */
  datatype Key = Ip(ip: nat) | IpPort(ip: nat, protocol: string, port: nat)

  datatype Static = Static(localIp: nat, localPort: Option<nat>, natType: Option<NatType>, twiceId: Option<nat>)

  type StaticTable = map<Key, Static>

  /** nat_ip split at its dash, and nat_port */
  datatype Pool = Pool(addresses: seq<nat>, ports: Option<string>)

  datatype Binding = Binding(acl: string, pool: string, twiceId: Option<nat>)

  /** STATIC_NAT, STATIC_NAPT, NAT_POOL and NAT_BINDINGS */
  datatype State = State(
    basic: StaticTable,
    napt: StaticTable,
    pools: map<string, Pool>,
    bindings: map<string, Binding>)

  const EMPTY := State(map[], map[], map[], map[])

  const MAX_NAME := 32
  const MAX_POOLS := 16

  /** is_valid_ipv4_address: not 0.0.0.0, loopback, multicast or reserved */
  predicate ValidAddress(ip: nat) {
    0 < ip < 0xE000_0000 && !(0x7F00_0000 <= ip < 0x8000_0000)
  }

  /** The address that an entry occupies: the local one for snat, otherwise the global one. */
  function Effective(k: Key, e: Static): nat {
    if e.natType == Some(Snat) then e.localIp else k.ip
  }

  predicate WellFormedPool(p: Pool) {
    1 <= |p.addresses| <= 2 && p.addresses[0] <= p.addresses[|p.addresses| - 1]
  }

  predicate Covers(p: Pool, ip: nat) {
    WellFormedPool(p) && p.addresses[0] <= ip <= p.addresses[|p.addresses| - 1]
  }

  predicate Occupied(table: StaticTable, ip: nat) {
    exists k | k in table :: Effective(k, table[k]) == ip
  }

  predicate InPool(pools: map<string, Pool>, ip: nat) {
    exists p | p in pools :: Covers(pools[p], ip)
  }

  predicate TouchesStatic(table: StaticTable, p: Pool) {
    exists k | k in table :: Covers(p, Effective(k, table[k]))
  }

  predicate HasTwiceId(e: Static, id: nat) {
    e.twiceId == Some(id)
  }

  /** The entries with the twice NAT id */
  function Sharing(table: StaticTable, id: nat): set<Key> {
    set k | k in table && HasTwiceId(table[k], id)
  }

  predicate IsLive(s: State, b: string, id: nat, except: Option<string>)
    requires b in s.bindings
  {
    Some(b) != except && s.bindings[b].pool in s.pools && s.bindings[b].twiceId == Some(id)
  }

  /** The bindings with the twice NAT id whose pool exists */
  function Live(s: State, id: nat, except: Option<string>): set<string> {
    set b | b in s.bindings && IsLive(s, b, id, except)
  }

  predicate Bound(bindings: map<string, Binding>, pool: string) {
    exists b | b in bindings :: bindings[b].pool == pool
  }

  // ---------- The commands ----------

  datatype Command =
    /** full: the counters database says that no more entries fit */
    | AddStatic(key: Key, entry: Static, full: bool)
    | RemoveStatic(key: Key, localIp: nat, localPort: Option<nat>)
    | RemoveStaticAll
    | AddPool(name: string, pool: Pool, validPorts: bool)
    | RemovePool(name: string)
    | RemovePools
    | AddBinding(name: string, binding: Binding, natType: Option<NatType>)
    | RemoveBinding(name: string)
    | RemoveBindings

  /** Failed: the command reports an error; Skipped: it prints a message and writes nothing. */
  datatype Outcome = Failed | Skipped | Done

  function TableOf(s: State, key: Key): StaticTable {
    if key.Ip? then s.basic else s.napt
  }

  predicate Present(table: StaticTable, key: Key, localIp: nat, localPort: Option<nat>) {
    key in table && table[key].localIp == localIp && table[key].localPort == localPort
  }

  function StaticCount(s: State, table: StaticTable, twiceId: Option<nat>): nat {
    if twiceId.None? then 0 else |Sharing(table, twiceId.value)| + |Live(s, twiceId.value, None)|
  }

  function BindingCount(s: State, name: string, twiceId: Option<nat>): nat {
    if twiceId.None? then 0
    else |Sharing(s.basic, twiceId.value)| + |Sharing(s.napt, twiceId.value)| + |Live(s, twiceId.value, Some(name))|
  }

  function OutcomeAddStatic(s: State, key: Key, entry: Static, full: bool): Outcome {
    var ip := Effective(key, entry);
    if !ValidAddress(entry.localIp) || !ValidAddress(key.ip) then Failed
    else if Occupied(if key.Ip? then s.napt else s.basic, ip) || (key.Ip? && InPool(s.pools, ip)) then Failed
    else if Present(TableOf(s, key), key, entry.localIp, entry.localPort) || full then Skipped
    else if StaticCount(s, TableOf(s, key), entry.twiceId) > 1 then Failed
    else Done
  }

  predicate ValidRange(addresses: seq<nat>) {
    if |addresses| == 1 then ValidAddress(addresses[0])
    else |addresses| == 2 && ValidAddress(addresses[0]) && ValidAddress(addresses[1]) && addresses[0] < addresses[1]
  }

  function OutcomeAddPool(s: State, name: string, pool: Pool, validPorts: bool): Outcome {
    if |name| > MAX_NAME || !ValidRange(pool.addresses) || !validPorts then Failed
    else if (name in s.pools && s.pools[name] == pool) || |s.pools| == MAX_POOLS then Skipped
    else if TouchesStatic(s.basic, pool) then Failed
    else Done
  }

  function OutcomeAddBinding(s: State, name: string, b: Binding, natType: Option<NatType>): Outcome {
    if |name| > MAX_NAME then Failed
    else if name in s.bindings && s.bindings[name].acl == b.acl && s.bindings[name].pool == b.pool then Skipped
    else if |s.bindings| == MAX_POOLS || natType == Some(Dnat) then Skipped
    else if BindingCount(s, name, b.twiceId) > 1 then Failed
    else Done
  }

  function Result(s: State, c: Command): Outcome {
    match c
    case AddStatic(key, entry, full) => OutcomeAddStatic(s, key, entry, full)
    case RemoveStatic(key, localIp, localPort) =>
      if !ValidAddress(localIp) || !ValidAddress(key.ip) then Failed
      else if Present(TableOf(s, key), key, localIp, localPort) then Done
      else Skipped
    case RemoveStaticAll => Done
    case AddPool(name, pool, validPorts) => OutcomeAddPool(s, name, pool, validPorts)
    case RemovePool(name) =>
      if |name| > MAX_NAME then Failed
      else if name !in s.pools || Bound(s.bindings, name) then Skipped
      else Done
    case RemovePools => Done
    case AddBinding(name, b, natType) => OutcomeAddBinding(s, name, b, natType)
    case RemoveBinding(name) => if |name| > MAX_NAME then Failed else if name !in s.bindings then Skipped else Done
    case RemoveBindings => Done
  }

  function Put(s: State, key: Key, entry: Static): State {
    if key.Ip? then s.(basic := s.basic[key := entry]) else s.(napt := s.napt[key := entry])
  }

  function Drop(s: State, key: Key): State {
    if key.Ip? then s.(basic := s.basic - {key}) else s.(napt := s.napt - {key})
  }

  function Unbound(s: State): set<string> {
    set p | p in s.pools && !Bound(s.bindings, p)
  }

  function After(s: State, c: Command): State {
    if Result(s, c) != Done then s
    else
      match c
      case AddStatic(key, entry, _) => Put(s, key, entry)
      case RemoveStatic(key, _, _) => Drop(s, key)
      case RemoveStaticAll => s.(basic := map[], napt := map[])
      case AddPool(name, pool, _) => s.(pools := s.pools[name := pool])
      case RemovePool(name) => s.(pools := s.pools - {name})
      case RemovePools => s.(pools := s.pools - Unbound(s))
      case AddBinding(name, b, _) => s.(bindings := s.bindings[name := b])
      case RemoveBinding(name) => s.(bindings := s.bindings - {name})
      case RemoveBindings => s.(bindings := map[])
  }

  function AfterAll(s: State, commands: seq<Command>): State {
    if commands == [] then s else After(AfterAll(s, commands[..|commands| - 1]), commands[|commands| - 1])
  }

  // ---------- What must always hold ----------

  predicate KeysFit(s: State) {
    (forall k | k in s.basic :: k.Ip?) && (forall k | k in s.napt :: k.IpPort?)
  }

  /** No static NAT address is that of a NAPT entry. */
  predicate NatAvoidsNapt(s: State) {
    forall k, l | k in s.basic && l in s.napt :: Effective(k, s.basic[k]) != Effective(l, s.napt[l])
  }

  /** No static NAT address is in a pool. */
  predicate NatAvoidsPools(s: State) {
    forall k, p | k in s.basic && p in s.pools :: !Covers(s.pools[p], Effective(k, s.basic[k]))
  }

  predicate PoolsFit(s: State) {
    |s.pools| <= MAX_POOLS && |s.bindings| <= MAX_POOLS && forall p | p in s.pools :: ValidRange(s.pools[p].addresses)
  }

  /** At most two entries of a static table have the same twice NAT id. */
  ghost predicate TwiceAtMost(table: StaticTable) {
    forall id :: |Sharing(table, id)| <= 2
  }

  ghost predicate Invariant(s: State) {
    KeysFit(s) && NatAvoidsNapt(s) && NatAvoidsPools(s) && PoolsFit(s) && TwiceAtMost(s.basic) && TwiceAtMost(s.napt)
  }

  // ---------- Every command keeps the invariant ----------

  lemma SharingAfterPut(table: StaticTable, key: Key, entry: Static)
    requires TwiceAtMost(table)
    requires entry.twiceId.Some? ==> |Sharing(table, entry.twiceId.value)| <= 1
    ensures TwiceAtMost(table[key := entry])
  {
    var table' := table[key := entry];
    forall id ensures |Sharing(table', id)| <= 2 {
      var before, after := Sharing(table, id), Sharing(table', id);
      if HasTwiceId(entry, id) {
        assert after == before + {key};
      } else {
        assert after <= before;
        FewerElements(after, before);
      }
    }
  }

  lemma FewerElements<T>(a: set<T>, b: set<T>)
    requires a <= b
    ensures |a| <= |b|
  {
    assert b == a + (b - a);
  }

  lemma SharingAfterDrop(table: StaticTable, key: Key)
    requires TwiceAtMost(table)
    ensures TwiceAtMost(table - {key})
  {
    forall id ensures |Sharing(table - {key}, id)| <= 2 {
      FewerElements(Sharing(table - {key}, id), Sharing(table, id));
    }
  }

  lemma AddStaticKeepsInvariant(s: State, key: Key, entry: Static, full: bool)
    requires Invariant(s) && OutcomeAddStatic(s, key, entry, full) == Done
    ensures Invariant(Put(s, key, entry))
  {
    SharingAfterPut(TableOf(s, key), key, entry);
    var t := Put(s, key, entry);
    forall k, l | k in t.basic && l in t.napt ensures Effective(k, t.basic[k]) != Effective(l, t.napt[l]) {
      if k == key {
        assert !Occupied(s.napt, Effective(key, entry));
      } else if l == key {
        assert !Occupied(s.basic, Effective(key, entry));
      }
    }
  }

  lemma RemoveStaticKeepsInvariant(s: State, key: Key)
    requires Invariant(s)
    ensures Invariant(Drop(s, key))
  {
    SharingAfterDrop(TableOf(s, key), key);
  }

  lemma AddPoolKeepsInvariant(s: State, name: string, pool: Pool, validPorts: bool)
    requires Invariant(s) && OutcomeAddPool(s, name, pool, validPorts) == Done
    ensures Invariant(s.(pools := s.pools[name := pool]))
  {
    var t := s.(pools := s.pools[name := pool]);
    OneMore(s.pools, name, pool);
    forall k, p | k in t.basic && p in t.pools ensures !Covers(t.pools[p], Effective(k, t.basic[k])) {
      if p == name {
        assert !TouchesStatic(s.basic, pool);
      }
    }
  }

  lemma OneMore<T>(m: map<string, T>, name: string, x: T)
    requires |m| != MAX_POOLS && |m| <= MAX_POOLS
    ensures |m[name := x]| <= MAX_POOLS
  {
    assert m[name := x].Keys == m.Keys + {name};
    assert |m[name := x].Keys| == |m[name := x]| && |m.Keys| == |m|;
  }

  lemma NoMore<T>(m: map<string, T>, gone: set<string>)
    ensures |m - gone| <= |m|
  {
    assert (m - gone).Keys == m.Keys - gone;
    FewerElements(m.Keys - gone, m.Keys);
    assert |(m - gone).Keys| == |m - gone| && |m.Keys| == |m|;
  }

  lemma CommandKeepsInvariant(s: State, c: Command)
    requires Invariant(s)
    ensures Invariant(After(s, c))
  {
    if Result(s, c) == Done {
      match c
      case AddStatic(key, entry, full) => AddStaticKeepsInvariant(s, key, entry, full);
      case RemoveStatic(key, _, _) => RemoveStaticKeepsInvariant(s, key);
      case RemoveStaticAll => assert forall id :: Sharing(map[], id) == {};
      case AddPool(name, pool, validPorts) => AddPoolKeepsInvariant(s, name, pool, validPorts);
      case RemovePool(name) => NoMore(s.pools, {name});
      case RemovePools => NoMore(s.pools, Unbound(s));
      case AddBinding(name, b, _) => OneMore(s.bindings, name, b);
      case RemoveBinding(name) => NoMore(s.bindings, {name});
      case RemoveBindings =>
    }
  }

  /** In every reachable state the address ranges are apart and the limits are kept. */
  lemma {:induction false} RunKeepsInvariant(commands: seq<Command>)
    ensures Invariant(AfterAll(EMPTY, commands))
  {
    if commands == [] {
      assert forall id :: Sharing(map[], id) == {};
    } else {
      RunKeepsInvariant(commands[..|commands| - 1]);
      CommandKeepsInvariant(AfterAll(EMPTY, commands[..|commands| - 1]), commands[|commands| - 1]);
    }
  }

  /** The pool of a binding that stays is not taken away. */
  lemma BoundPoolStays(s: State, c: Command, b: string)
    requires b in s.bindings && b in After(s, c).bindings && After(s, c).bindings[b].pool == s.bindings[b].pool
    ensures s.bindings[b].pool in s.pools ==> s.bindings[b].pool in After(s, c).pools
  {
    assert Bound(s.bindings, s.bindings[b].pool);
  }

  // ---------- What is refused, and what is done ----------

  /** How many entries of the table have the twice NAT id */
  function Counted(table: StaticTable, id: nat): nat {
    |set k | k in table && table[k].twiceId == Some(id)|
  }

  /** How many bindings whose pool exists have it, apart from one */
  function CountedBindings(s: State, id: nat, except: Option<string>): nat {
    |set b | b in s.bindings && s.bindings[b].twiceId == Some(id) && s.bindings[b].pool in s.pools && Some(b) != except|
  }

  /** An address a.b.c.d is valid exactly if it is not 0.0.0.0, its first number is not 127 (loopback) and below 224,
      where the multicast and the reserved addresses begin.
   */
  lemma ValidAddressIff(a: nat, b: nat, c: nat, d: nat)
    requires a < 256 && b < 256 && c < 256 && d < 256
    ensures ValidAddress(((a * 256 + b) * 256 + c) * 256 + d) <==>
      a != 127 && a < 224 && (a, b, c, d) != (0, 0, 0, 0)
  {
  }

  /** A pool is one valid address or a range of two in ascending order, and covers what lies between them. */
  lemma PoolRange(a: nat, b: nat, ports: Option<string>, ip: nat)
    ensures ValidRange([a]) <==> ValidAddress(a)
    ensures ValidRange([a, b]) <==> ValidAddress(a) && ValidAddress(b) && a < b
    ensures !ValidRange([]) && forall more: seq<nat> | more != [] :: !ValidRange([a, b] + more)
    ensures Covers(Pool([a], ports), ip) <==> ip == a
    ensures Covers(Pool([a, b], ports), ip) <==> a <= ip <= b
  {
  }

  /** A static entry is added exactly if its addresses are valid, it is not there with these local parts, there is
      room, its address stays apart from the other static table and, for NAT, from the pools, and its id was
      counted at most once; and nothing else changes.
   */
  lemma AddStaticIff(s: State, key: Key, entry: Static, full: bool)
    requires Invariant(s)
    ensures
      var table := if key.Ip? then s.basic else s.napt;
      var t := if key.Ip? then s.(basic := s.basic[key := entry]) else s.(napt := s.napt[key := entry]);
      && (Result(s, AddStatic(key, entry, full)) == Done <==>
            && ValidAddress(entry.localIp) && ValidAddress(key.ip) && !full
            && !(key in table && table[key].localIp == entry.localIp && table[key].localPort == entry.localPort)
            && NatAvoidsNapt(t) && NatAvoidsPools(t)
            && (entry.twiceId.Some? ==>
                  Counted(table, entry.twiceId.value) + CountedBindings(s, entry.twiceId.value, None) <= 1))
      && (Result(s, AddStatic(key, entry, full)) == Failed <==>
            || !ValidAddress(entry.localIp) || !ValidAddress(key.ip) || !NatAvoidsNapt(t) || !NatAvoidsPools(t)
            || (!full && entry.twiceId.Some?
                && !(key in table && table[key].localIp == entry.localIp && table[key].localPort == entry.localPort)
                && Counted(table, entry.twiceId.value) + CountedBindings(s, entry.twiceId.value, None) > 1))
      && After(s, AddStatic(key, entry, full)) == if Result(s, AddStatic(key, entry, full)) == Done then t else s
  {
    var table := if key.Ip? then s.basic else s.napt;
    var t := if key.Ip? then s.(basic := s.basic[key := entry]) else s.(napt := s.napt[key := entry]);
    CountsAgree(s, table, None);
    ApartIff(s, key, entry, t);
  }

  lemma CountsAgree(s: State, table: StaticTable, except: Option<string>)
    ensures forall id: nat :: Counted(table, id) == |Sharing(table, id)|
    ensures forall id: nat :: CountedBindings(s, id, except) == |Live(s, id, except)|
  {
    forall id: nat
      ensures Counted(table, id) == |Sharing(table, id)| && CountedBindings(s, id, except) == |Live(s, id, except)|
    {
      assert Sharing(table, id) == set k | k in table && table[k].twiceId == Some(id);
      assert Live(s, id, except) == set b | b in s.bindings && s.bindings[b].twiceId == Some(id)
                                            && s.bindings[b].pool in s.pools && Some(b) != except;
    }
  }

  lemma ApartIff(s: State, key: Key, entry: Static, t: State)
    requires Invariant(s)
    requires t == if key.Ip? then s.(basic := s.basic[key := entry]) else s.(napt := s.napt[key := entry])
    ensures NatAvoidsNapt(t) && NatAvoidsPools(t) <==>
      && !Occupied(if key.Ip? then s.napt else s.basic, Effective(key, entry))
      && !(key.Ip? && InPool(s.pools, Effective(key, entry)))
  {
    if key.Ip? {
      assert key in t.basic && t.basic[key] == entry;
      assert forall k | k in t.basic && k != key :: k in s.basic && t.basic[k] == s.basic[k];
    } else {
      assert key in t.napt && t.napt[key] == entry;
      assert forall k | k in t.napt && k != key :: k in s.napt && t.napt[k] == s.napt[k];
    }
  }

  /** An entry is removed exactly by its key and local parts; the command fails exactly for an invalid address. */
  lemma RemoveStaticIff(s: State, key: Key, localIp: nat, localPort: Option<nat>)
    ensures Result(s, RemoveStatic(key, localIp, localPort)) == Failed <==>
      !ValidAddress(localIp) || !ValidAddress(key.ip)
    ensures
      var table := if key.Ip? then s.basic else s.napt;
      After(s, RemoveStatic(key, localIp, localPort)) ==
        if ValidAddress(localIp) && ValidAddress(key.ip) && key in table
          && table[key].localIp == localIp && table[key].localPort == localPort
        then if key.Ip? then s.(basic := s.basic - {key}) else s.(napt := s.napt - {key})
        else s
  {
  }

  /** A new entry can be removed, which restores the tables. */
  lemma StaticUndone(s: State, key: Key, entry: Static)
    requires ValidAddress(entry.localIp) && ValidAddress(key.ip) && key !in s.basic && key !in s.napt
    ensures
      var added := if key.Ip? then s.(basic := s.basic[key := entry]) else s.(napt := s.napt[key := entry]);
      After(added, RemoveStatic(key, entry.localIp, entry.localPort)) == s
  {
    var added := if key.Ip? then s.(basic := s.basic[key := entry]) else s.(napt := s.napt[key := entry]);
    RemoveStaticIff(added, key, entry.localIp, entry.localPort);
    assert s.basic[key := entry] - {key} == s.basic;
    assert s.napt[key := entry] - {key} == s.napt;
  }

  /** A removal takes away one key at most, and no pool and no binding. */
  lemma RemoveStaticKeepsOthers(s: State, key: Key, localIp: nat, localPort: Option<nat>)
    ensures
      var t := After(s, RemoveStatic(key, localIp, localPort));
      && t.pools == s.pools && t.bindings == s.bindings
      && forall k | k != key :: Lookup(t.basic, k) == Lookup(s.basic, k) && Lookup(t.napt, k) == Lookup(s.napt, k)
  {
  }

  /** A pool is added exactly if its name and range are valid, it is not there yet, there is room, and no static NAT
      address is in it.
   */
  lemma AddPoolIff(s: State, name: string, pool: Pool, validPorts: bool)
    requires Invariant(s)
    ensures
      var t := s.(pools := s.pools[name := pool]);
      && (Result(s, AddPool(name, pool, validPorts)) == Done <==>
            && |name| <= 32 && ValidRange(pool.addresses) && validPorts && Lookup(s.pools, name) != Some(pool)
            && |s.pools| < 16 && NatAvoidsPools(t))
      && (Result(s, AddPool(name, pool, validPorts)) == Failed <==>
            || |name| > 32 || !ValidRange(pool.addresses) || !validPorts
            || (Lookup(s.pools, name) != Some(pool) && |s.pools| < 16 && !NatAvoidsPools(t)))
      && After(s, AddPool(name, pool, validPorts))
         == if Result(s, AddPool(name, pool, validPorts)) == Done then t else s
  {
    var t := s.(pools := s.pools[name := pool]);
    assert name in t.pools && t.pools[name] == pool;
    assert forall p | p in t.pools && p != name :: p in s.pools && t.pools[p] == s.pools[p];
    if TouchesStatic(s.basic, pool) {
      var k :| k in s.basic && Covers(pool, Effective(k, s.basic[k]));
      assert !NatAvoidsPools(t);
    }
  }

  /** A pool goes exactly if its name is not too long and no binding names it. */
  lemma RemovePoolIff(s: State, name: string)
    requires name in s.pools
    ensures
      var t := After(s, RemovePool(name));
      && (name !in t.pools <==> |name| <= 32 && forall b | b in s.bindings :: s.bindings[b].pool != name)
      && (forall p | p != name :: Lookup(t.pools, p) == Lookup(s.pools, p))
      && t == s.(pools := t.pools)
    ensures
      var t := After(s, RemovePools);
      && (forall p | p in s.pools :: p in t.pools <==> exists b | b in s.bindings :: s.bindings[b].pool == p)
      && (forall p | p in t.pools :: p in s.pools && t.pools[p] == s.pools[p])
      && t == s.(pools := t.pools)
  {
  }

  /** A binding is added exactly if its name is not too long, it is not there with its access list and pool, there is
      room, it is not for destinations, and its id is counted at most once without the binding itself.
   */
  lemma AddBindingIff(s: State, name: string, b: Binding, natType: Option<NatType>)
    requires Invariant(s)
    ensures
      var c := AddBinding(name, b, natType);
      && (Result(s, c) == Done <==>
            && |name| <= 32 && |s.bindings| < 16 && natType != Some(Dnat)
            && !(name in s.bindings && s.bindings[name].acl == b.acl && s.bindings[name].pool == b.pool)
            && (b.twiceId.Some? ==>
                  Counted(s.basic, b.twiceId.value) + Counted(s.napt, b.twiceId.value)
                  + CountedBindings(s, b.twiceId.value, Some(name)) <= 1))
      && (Result(s, c) == Failed <==>
            || |name| > 32
            || (|s.bindings| < 16 && natType != Some(Dnat)
                && !(name in s.bindings && s.bindings[name].acl == b.acl && s.bindings[name].pool == b.pool)
                && b.twiceId.Some? && Counted(s.basic, b.twiceId.value) + Counted(s.napt, b.twiceId.value)
                                      + CountedBindings(s, b.twiceId.value, Some(name)) > 1))
      && After(s, c) == if Result(s, c) == Done then s.(bindings := s.bindings[name := b]) else s
  {
    CountsAgree(s, s.basic, Some(name));
    CountsAgree(s, s.napt, Some(name));
  }

  /** A new binding can be removed, which restores the bindings. */
  lemma BindingUndone(s: State, name: string, b: Binding, natType: Option<NatType>)
    requires Invariant(s) && name !in s.bindings && Result(s, AddBinding(name, b, natType)) == Done
    ensures After(After(s, AddBinding(name, b, natType)), RemoveBinding(name)) == s
  {
    AddBindingIff(s, name, b, natType);
    RemoveBindingIs(s.(bindings := s.bindings[name := b]), name);
    assert s.bindings[name := b] - {name} == s.bindings;
  }

  /** A binding or pool that is not there is skipped; only a long name fails. */
  lemma RemoveBindingIs(s: State, name: string)
    ensures Result(s, RemoveBinding(name)) ==
      if |name| > 32 then Failed else if name in s.bindings then Done else Skipped
    ensures Result(s, RemovePool(name)) == Failed <==> |name| > 32
    ensures After(s, RemoveBinding(name)) == if |name| <= 32 then s.(bindings := s.bindings - {name}) else s
  {
    if name !in s.bindings {
      assert s.bindings - {name} == s.bindings;
    }
  }

  /** The commands for all entries empty the tables that they name, and leave the others. */
  lemma AllGone(s: State)
    ensures After(s, RemoveStaticAll) == s.(basic := map[], napt := map[])
    ensures After(s, RemoveBindings) == s.(bindings := map[])
  {
  }

  // ---------- The twice NAT id across tables ----------

  /** Everything in force that has the twice NAT id */
  function Total(s: State, id: nat): nat {
    |Sharing(s.basic, id)| + |Sharing(s.napt, id)| + |Live(s, id, None)|
  }

  function OtherTable(s: State, key: Key): StaticTable {
    if key.Ip? then s.napt else s.basic
  }

  /** A static entry that is added, or put over one with the same key, keeps its id within two over all tables
      exactly when the other entries with the id leave room: those of its table, the bindings, and those of the
      other static table, which the command does not count.
   */
  lemma TotalKeptIff(s: State, key: Key, entry: Static, id: nat)
    requires entry.twiceId == Some(id)
    ensures Total(Put(s, key, entry), id) <= 2 <==>
      |Sharing(TableOf(s, key), id) - {key}| + |Live(s, id, None)| + |Sharing(OtherTable(s, key), id)| <= 1
  {
    var others := Sharing(TableOf(s, key), id) - {key};
    assert Sharing(TableOf(s, key)[key := entry], id) == others + {key};
    SameLive(s, Put(s, key, entry), id);
  }

  lemma PutShares(s: State, key: Key, entry: Static, id: nat)
    requires entry.twiceId == Some(id) && key !in TableOf(s, key)
    ensures var t := Put(s, key, entry);
      && |Sharing(TableOf(t, key), id)| == |Sharing(TableOf(s, key), id)| + 1
      && OtherTable(t, key) == OtherTable(s, key) && Live(t, id, None) == Live(s, id, None)
  {
    OneMoreShares(TableOf(s, key), key, entry, id);
    SameLive(s, Put(s, key, entry), id);
  }

  lemma OneMoreShares(table: StaticTable, key: Key, entry: Static, id: nat)
    requires HasTwiceId(entry, id) && key !in table
    ensures |Sharing(table[key := entry], id)| == |Sharing(table, id)| + 1
  {
    assert Sharing(table[key := entry], id) == Sharing(table, id) + {key};
  }

  lemma SameLive(s: State, t: State, id: nat)
    requires s.bindings == t.bindings && s.pools == t.pools
    ensures Live(s, id, None) == Live(t, id, None)
  {
    forall b | b in s.bindings ensures IsLive(s, b, id, None) == IsLive(t, b, id, None) {
    }
  }

  /** The add of a plain entry is accepted while its own table and the bindings leave room. */
  lemma AddAccepted(run: seq<Command>, key: Key, entry: Static, id: nat) returns (more: seq<Command>)
    requires entry == Static(0x0A00_0064, None, None, Some(id)) && ValidAddress(key.ip)
    requires var s := AfterAll(EMPTY, run);
      && s.pools == map[] && key !in TableOf(s, key) && !Occupied(OtherTable(s, key), key.ip)
        && StaticCount(s, TableOf(s, key), Some(id)) <= 1
    ensures AfterAll(EMPTY, more) == Put(AfterAll(EMPTY, run), key, entry)
  {
    var c := AddStatic(key, entry, false);
    more := run + [c];
    assert more[..|more| - 1] == run;
    assert Result(AfterAll(EMPTY, run), c) == Done;
  }

  /** Two entries in each static table may share an id. */
  lemma TablesCountedApart(id: nat)
    ensures exists run :: Total(AfterAll(EMPTY, run), id) == 4
  {
    var entry := Static(0x0A00_0064, None, None, Some(id));
    var (a, b) := (Ip(0x0A00_0001), Ip(0x0A00_0002));
    var (c, d) := (IpPort(0x0A00_0003, "TCP", 80), IpPort(0x0A00_0004, "UDP", 80));
    var s0 := EMPTY;
    assert Sharing(map[], id) == {} && Live(s0, id, None) == {};
    var run := AddAccepted([], a, entry, id);
    PutShares(s0, a, entry, id);
    var s1 := Put(s0, a, entry);
    run := AddAccepted(run, b, entry, id);
    PutShares(s1, b, entry, id);
    var s2 := Put(s1, b, entry);
    assert s2.basic.Keys == {a, b};
    run := AddAccepted(run, c, entry, id);
    PutShares(s2, c, entry, id);
    var s3 := Put(s2, c, entry);
    run := AddAccepted(run, d, entry, id);
    PutShares(s3, d, entry, id);
  }

  /** A pool brings into force the waiting bindings that name it, whatever their number. */
  lemma PoolWakesBindings(s: State, name: string, pool: Pool, id: nat)
    ensures Live(s.(pools := s.pools[name := pool]), id, None) ==
      Live(s, id, None) + (set b | b in s.bindings && s.bindings[b].pool == name && s.bindings[b].twiceId == Some(id))
  {
  }

  // ---------- The commands as they run ----------

  lemma OneLess<T>(all: set<T>, todo: set<T>, k: T)
    requires k in todo
    ensures |all - (todo - {k})| == |all - todo| + if k in all then 1 else 0
  {
    assert all - (todo - {k}) == (all - todo) + (all * {k});
    if k in all {
      assert all * {k} == {k};
    }
  }

  class NatConfig {
    var staticNat: StaticTable
    var staticNapt: StaticTable
    var natPool: map<string, Pool>
    var natBindings: map<string, Binding>

    constructor ()
      ensures Tables() == EMPTY
    {
      staticNat, staticNapt, natPool, natBindings := map[], map[], map[], map[];
    }

    function Tables(): State
      reads this
    {
      State(staticNat, staticNapt, natPool, natBindings)
    }

    /** isIpOverlappingWithAnyStaticEntry; keys of the wrong kind are passed over. */
    method IsIpOverlapping(ip: nat, table: StaticTable, isNapt: bool) returns (overlapping: bool)
      requires forall k | k in table :: k.IpPort? == isNapt
      ensures overlapping <==> Occupied(table, ip)
    {
      var todo := table.Keys;
      while todo != {}
        invariant todo <= table.Keys && forall k | k in table && k !in todo :: Effective(k, table[k]) != ip
      {
        var k :| k in todo;
        if k.IpPort? == isNapt {
          var globalIp := k.ip;
          if table[k].natType == Some(Snat) {
            globalIp := table[k].localIp;
          }
          if globalIp == ip {
            assert Effective(k, table[k]) == ip;
            return true;
          }
        }
        todo := todo - {k};
      }
      overlapping := false;
    }

    /** isOverlappingWithAnyDynamicEntry */
    method IsOverlappingWithPool(ip: nat) returns (overlapping: bool)
      requires PoolsFit(Tables())
      ensures overlapping <==> InPool(natPool, ip)
    {
      var todo := natPool.Keys;
      while todo != {}
        invariant todo <= natPool.Keys && forall p | p in natPool && p !in todo :: !Covers(natPool[p], ip)
      {
        var p :| p in todo;
        var addresses := natPool[p].addresses;
        assert ValidRange(addresses);
        var startIp := addresses[0];
        var endIp := if |addresses| == 1 then addresses[0] else addresses[1];
        if startIp <= ip <= endIp {
          assert Covers(natPool[p], ip);
          return true;
        }
        todo := todo - {p};
      }
      overlapping := false;
    }

    /** getTwiceNatIdCountWithStaticEntries */
    method CountStatic(id: nat, table: StaticTable, count: nat) returns (total: nat)
      ensures total == count + |Sharing(table, id)|
    {
      total := count;
      ghost var sharing := Sharing(table, id);
      var todo := table.Keys;
      while todo != {}
        invariant todo <= table.Keys && total == count + |sharing - todo|
      {
        var k :| k in todo;
        OneLess(sharing, todo, k);
        if table[k].twiceId == Some(id) {
          assert HasTwiceId(table[k], id);
          total := total + 1;
        }
        todo := todo - {k};
      }
      assert sharing - todo == sharing;
    }

    /** getTwiceNatIdCountWithDynamicBinding */
    method CountBindings(id: nat, count: nat, dynamicKey: Option<string>) returns (total: nat)
      ensures total == count + |Live(Tables(), id, dynamicKey)|
    {
      total := count;
      ghost var live := Live(Tables(), id, dynamicKey);
      var todo := natBindings.Keys;
      while todo != {}
        invariant todo <= natBindings.Keys && total == count + |live - todo|
      {
        var b :| b in todo;
        OneLess(live, todo, b);
        assert b in live <==> IsLive(Tables(), b, id, dynamicKey);
        if dynamicKey != Some(b) && natBindings[b].pool in natPool && natBindings[b].twiceId == Some(id) {
          total := total + 1;
        }
        todo := todo - {b};
      }
      assert live - todo == live;
    }

    /** The count that add_basic, add_tcp and add_udp compare with one */
    method CountForStatic(table: StaticTable, twiceId: Option<nat>) returns (count: nat)
      ensures count == StaticCount(Tables(), table, twiceId)
    {
      count := 0;
      if twiceId.Some? {
        count := CountStatic(twiceId.value, table, count);
        count := CountBindings(twiceId.value, count, None);
      }
    }

    /** add_basic */
    method AddBasic(globalIp: nat, localIp: nat, natType: Option<NatType>, twiceId: Option<nat>, full: bool)
      returns (outcome: Outcome)
      requires Invariant(Tables())
      modifies this`staticNat
      ensures outcome == Result(old(Tables()), AddStatic(Ip(globalIp), Static(localIp, None, natType, twiceId), full))
      ensures Tables() == After(old(Tables()), AddStatic(Ip(globalIp), Static(localIp, None, natType, twiceId), full))
    {
      if !ValidAddress(localIp) || !ValidAddress(globalIp) {
        return Failed;
      }
      var key := Ip(globalIp);
      var entryFound := key in staticNat && staticNat[key].localIp == localIp && staticNat[key].localPort == None;
      var ip := if natType == Some(Snat) then localIp else globalIp;
      var overlapping := IsIpOverlapping(ip, staticNapt, true);
      if overlapping {
        return Failed;
      }
      overlapping := IsOverlappingWithPool(ip);
      if overlapping {
        return Failed;
      }
      if entryFound || full {
        return Skipped;
      }
      var count := CountForStatic(staticNat, twiceId);
      if count > 1 {
        return Failed;
      }
      staticNat := staticNat[key := Static(localIp, None, natType, twiceId)];
      outcome := Done;
    }

    /** add_tcp and add_udp */
    method AddNapt(protocol: string, globalIp: nat, globalPort: nat, localIp: nat, localPort: nat,
                   natType: Option<NatType>, twiceId: Option<nat>, full: bool)
      returns (outcome: Outcome)
      requires Invariant(Tables())
      modifies this`staticNapt
      ensures outcome == Result(old(Tables()),
        AddStatic(IpPort(globalIp, protocol, globalPort), Static(localIp, Some(localPort), natType, twiceId), full))
      ensures Tables() == After(old(Tables()),
        AddStatic(IpPort(globalIp, protocol, globalPort), Static(localIp, Some(localPort), natType, twiceId), full))
    {
      if !ValidAddress(localIp) || !ValidAddress(globalIp) {
        return Failed;
      }
      var key := IpPort(globalIp, protocol, globalPort);
      var entryFound := key in staticNapt && staticNapt[key].localIp == localIp
        && staticNapt[key].localPort == Some(localPort);
      var ip := if natType == Some(Snat) then localIp else globalIp;
      var overlapping := IsIpOverlapping(ip, staticNat, false);
      if overlapping {
        return Failed;
      }
      if entryFound || full {
        return Skipped;
      }
      var count := CountForStatic(staticNapt, twiceId);
      if count > 1 {
        return Failed;
      }
      staticNapt := staticNapt[key := Static(localIp, Some(localPort), natType, twiceId)];
      outcome := Done;
    }

    /** remove_basic */
    method RemoveBasic(globalIp: nat, localIp: nat) returns (outcome: Outcome)
      requires Invariant(Tables())
      modifies this`staticNat
      ensures outcome == Result(old(Tables()), RemoveStatic(Ip(globalIp), localIp, None))
      ensures Tables() == After(old(Tables()), RemoveStatic(Ip(globalIp), localIp, None))
    {
      if !ValidAddress(localIp) || !ValidAddress(globalIp) {
        return Failed;
      }
      var key := Ip(globalIp);
      if key in staticNat && staticNat[key].localIp == localIp && staticNat[key].localPort == None {
        staticNat := staticNat - {key};
        return Done;
      }
      outcome := Skipped;
    }

    /** remove_tcp and remove_udp */
    method RemoveNapt(protocol: string, globalIp: nat, globalPort: nat, localIp: nat, localPort: nat)
      returns (outcome: Outcome)
      modifies this`staticNapt
      ensures outcome
        == Result(old(Tables()), RemoveStatic(IpPort(globalIp, protocol, globalPort), localIp, Some(localPort)))
      ensures Tables()
        == After(old(Tables()), RemoveStatic(IpPort(globalIp, protocol, globalPort), localIp, Some(localPort)))
    {
      if !ValidAddress(localIp) || !ValidAddress(globalIp) {
        return Failed;
      }
      var key := IpPort(globalIp, protocol, globalPort);
      if key in staticNapt && staticNapt[key].localIp == localIp && staticNapt[key].localPort == Some(localPort) {
        staticNapt := staticNapt - {key};
        return Done;
      }
      outcome := Skipped;
    }

    /** remove_static_all */
    method RemoveAllStatic()
      modifies this`staticNat, this`staticNapt
      ensures Tables() == After(old(Tables()), RemoveStaticAll)
    {
      staticNat := Emptied(staticNat);
      staticNapt := Emptied(staticNapt);
    }

    /** add_pool */
    method AddPoolCommand(name: string, pool: Pool, validPorts: bool) returns (outcome: Outcome)
      modifies this`natPool
      ensures outcome == Result(old(Tables()), AddPool(name, pool, validPorts))
      ensures Tables() == After(old(Tables()), AddPool(name, pool, validPorts))
    {
      var addresses := pool.addresses;
      if |name| > MAX_NAME || |addresses| == 0 || |addresses| > 2 || !ValidAddress(addresses[0]) {
        return Failed;
      }
      if |addresses| == 2 && (!ValidAddress(addresses[1]) || addresses[0] >= addresses[1]) {
        return Failed;
      }
      if !validPorts {
        return Failed;
      }
      if (name in natPool && natPool[name] == pool) || |natPool| == MAX_POOLS {
        return Skipped;
      }
      var overlapping := TouchesStaticNat(pool);
      if overlapping {
        return Failed;
      }
      natPool := natPool[name := pool];
      outcome := Done;
    }

    /** The scan of the static NAT table for an address in the new pool */
    method TouchesStaticNat(pool: Pool) returns (overlapping: bool)
      requires ValidRange(pool.addresses)
      ensures overlapping <==> TouchesStatic(staticNat, pool)
    {
      var low, high := pool.addresses[0], pool.addresses[|pool.addresses| - 1];
      var todo := staticNat.Keys;
      while todo != {}
        invariant todo <= staticNat.Keys && forall k | k in staticNat && k !in todo ::
          !Covers(pool, Effective(k, staticNat[k]))
      {
        var k :| k in todo;
        if low <= Effective(k, staticNat[k]) <= high {
          return true;
        }
        todo := todo - {k};
      }
      overlapping := false;
    }

    /** remove_pool */
    method RemovePoolCommand(name: string) returns (outcome: Outcome)
      modifies this`natPool
      ensures outcome == Result(old(Tables()), RemovePool(name))
      ensures Tables() == After(old(Tables()), RemovePool(name))
    {
      if |name| > MAX_NAME {
        return Failed;
      }
      if name !in natPool {
        return Skipped;
      }
      var bound := IsBound(name);
      if bound {
        return Skipped;
      }
      natPool := natPool - {name};
      outcome := Done;
    }

    /** The scan of the bindings for the pool */
    method IsBound(name: string) returns (bound: bool)
      ensures bound <==> Bound(natBindings, name)
    {
      var todo := natBindings.Keys;
      while todo != {}
        invariant todo <= natBindings.Keys && forall b | b in natBindings && b !in todo :: natBindings[b].pool != name
      {
        var b :| b in todo;
        if natBindings[b].pool == name {
          return true;
        }
        todo := todo - {b};
      }
      bound := false;
    }

    /** remove_pools */
    method RemoveAllPools()
      modifies this`natPool
      ensures Tables() == After(old(Tables()), RemovePools)
    {
      ghost var unbound := Unbound(Tables());
      var pools := natPool;
      var todo := pools.Keys;
      while todo != {}
        invariant todo <= pools.Keys && natPool == pools - (unbound - todo)
      {
        var p :| p in todo;
        var bound := IsBound(p);
        if !bound {
          natPool := natPool - {p};
          assert unbound - (todo - {p}) == unbound - todo + {p};
        } else {
          assert unbound - (todo - {p}) == unbound - todo;
        }
        todo := todo - {p};
      }
      assert unbound - todo == unbound;
    }

    /** add_binding; no twice NAT id is stored as "NULL". */
    method AddBindingCommand(name: string, binding: Binding, natType: Option<NatType>) returns (outcome: Outcome)
      modifies this`natBindings
      ensures outcome == Result(old(Tables()), AddBinding(name, binding, natType))
      ensures Tables() == After(old(Tables()), AddBinding(name, binding, natType))
    {
      if |name| > MAX_NAME {
        return Failed;
      }
      var entryFound := name in natBindings && natBindings[name].acl == binding.acl
        && natBindings[name].pool == binding.pool;
      if entryFound || |natBindings| == MAX_POOLS || natType == Some(Dnat) {
        return Skipped;
      }
      var count := CountForBinding(name, binding.twiceId);
      if count > 1 {
        return Failed;
      }
      natBindings := natBindings[name := binding];
      outcome := Done;
    }

    /** The count that add_binding compares with one */
    method CountForBinding(name: string, twiceId: Option<nat>) returns (count: nat)
      ensures count == BindingCount(Tables(), name, twiceId)
    {
      count := 0;
      if twiceId.Some? {
        count := CountStatic(twiceId.value, staticNat, count);
        count := CountStatic(twiceId.value, staticNapt, count);
        count := CountBindings(twiceId.value, count, Some(name));
      }
    }

    /** remove_binding */
    method RemoveBindingCommand(name: string) returns (outcome: Outcome)
      modifies this`natBindings
      ensures outcome == Result(old(Tables()), RemoveBinding(name))
      ensures Tables() == After(old(Tables()), RemoveBinding(name))
    {
      if |name| > MAX_NAME {
        return Failed;
      }
      if name !in natBindings {
        return Skipped;
      }
      natBindings := natBindings - {name};
      outcome := Done;
    }

    /** remove_bindings */
    method RemoveAllBindings()
      modifies this`natBindings
      ensures Tables() == After(old(Tables()), RemoveBindings)
    {
      natBindings := Emptied(natBindings);
    }
  }

  /** Deletes the entries of a table one by one. */
  method Emptied<K, V>(table: map<K, V>) returns (rest: map<K, V>)
    ensures rest == map[]
  {
    rest := table;
    var todo := table.Keys;
    while todo != {}
      invariant rest.Keys == todo
    {
      var k :| k in todo;
      rest := rest - {k};
      todo := todo - {k};
    }
  }
}
