/** Installing compiled ACL rules in the global Config DB and in the Config DB of every namespace. */
module AclLoader {
  import opened JsonTree
  import opened Decimal
  import opened AclRules

  /** An entry as the store keeps it: text only. */
  type Raw = map<string, string>
  type Store = map<Key, Raw>

  function RawText(p: Property): string {
    match p
    case TextProp(text) => text
    case NumberProp(number) => Text(number)
  }

  function ToRaw(p: Props): Raw {
    map f | f in p :: RawText(p[f])
  }

  /** What reading an entry back gives. */
  function FromRaw(r: Raw): Props {
    map f | f in r :: TextProp(r[f])
  }

  /** The ACL_RULE table that holds exactly these rules. */
  function Installed(rules: Rules): Store {
    map k | k in rules :: ToRaw(rules[k])
  }

  /** One write to the ACL_RULE table of one database: set_entry replaces, mod_entry merges, None deletes. */
  function Put(db: Store, key: Key, value: Option<Raw>, merge: bool): Store {
    if value.None? then db - {key}
    else db[key := if merge && key in db then db[key] + value.value else value.value]
  }

  /** Every entry of db is as in a or as in b. */
  ghost predicate Between(a: Store, b: Store, db: Store) {
    forall k :: Lookup(db, k) == Lookup(a, k) || Lookup(db, k) == Lookup(b, k)
  }

  /** The snapshot that was read is what every database holds. */
  predicate InSync(dbs: seq<Store>, snapshot: Store) {
    forall i | 0 <= i < |dbs| :: dbs[i] == snapshot
  }

  predicate TablesExist(tables: Tables, rules: set<Key>) {
    forall k | k in rules :: k.0 in tables
  }

  predicate ControlPlaneKey(tables: Tables, k: Key) {
    k.0 in tables && IsControlPlane(tables[k.0])
  }

  /** The rule is in the old and in the new set, under a table of the control plane. */
  predicate Standing(tables: Tables, snapshot: Store, rules: Rules, k: Key) {
    k in snapshot && k in rules && k.0 in tables && SameButCase(tables[k.0].kind, "CTRLPLANE")
  }

  /** A control-plane rule in the old and the new set is there with its old or its new contents. */
  predicate RuleStands(tables: Tables, snapshot: Store, rules: Rules, db: Store) {
    forall k | k in snapshot && k in rules && ControlPlaneKey(tables, k) ::
      k in db && (db[k] == snapshot[k] || db[k] == ToRaw(rules[k]))
  }

  /** What a full update leaves in a database: the other tables' rules and the compiled ones. */
  function FullResult(db: Store, rules: Rules, current: Option<string>): Store {
    (map k | k in db && current.Some? && k.0 != current.value :: db[k]) + Installed(rules)
  }

  /** Under the key of each rule stands the text of all its properties, and of nothing else. */
  predicate HoldsRules(db: Store, rules: Rules) {
    forall k | k in rules ::
      && k in db && db[k].Keys == rules[k].Keys
      && forall f | f in rules[k] ::
           db[k][f] == match rules[k][f] { case TextProp(text) => text case NumberProp(number) => Text(number) }
  }

  /** Besides the rules, the database holds exactly the old rules of other tables, if there is a restriction to one. */
  ghost predicate KeepsOthers(db: Store, snapshot: Store, rules: Rules, current: Option<string>) {
    forall k | k !in rules ::
      Lookup(db, k) == if current.Some? && k.0 != current.value then Lookup(snapshot, k) else None
  }

  lemma FullResultHolds(snapshot: Store, rules: Rules, current: Option<string>)
    ensures HoldsRules(Installed(rules), rules) && Installed(rules).Keys == rules.Keys
    ensures HoldsRules(FullResult(snapshot, rules, current), rules)
    ensures KeepsOthers(FullResult(snapshot, rules, current), snapshot, rules, current)
  {
  }

  class AclLoader {
    const tables: Tables
    const snapshot: Store
    const rulesInfo: Rules
    const current: Option<string>
    /** The global database comes first, then one for each namespace. */
    var dbs: seq<Store>
    /** Every state of all the databases after a single write, and what was written. */
    ghost var states: seq<seq<Store>>
    ghost var written: multiset<Key>

    constructor (tables: Tables, snapshot: Store, rulesInfo: Rules, current: Option<string>, dbs: seq<Store>)
      ensures this.tables == tables && this.snapshot == snapshot && this.rulesInfo == rulesInfo
      ensures this.current == current && this.dbs == dbs && states == [] && written == multiset{}
    {
      this.tables, this.snapshot, this.rulesInfo, this.current := tables, snapshot, rulesInfo, current;
      this.dbs, states, written := dbs, [], multiset{};
    }

    /** All databases hold the same rules. */
    ghost predicate AllHold(s: Store)
      reads this
    {
      dbs != [] && InSync(dbs, s)
    }

    /** What a sequence of writes to the given keys, from a to b, adds to the logs. */
    twostate predicate Logged(keys: set<Key>, a: Store, b: Store)
      reads this
    {
      && (forall k | k !in keys :: written[k] == old(written)[k])
      && |old(states)| <= |states| && states[..|old(states)|] == old(states)
      && AllBetween(states[|old(states)|..], a, b)
    }

    /** One write, first to the global database and then to each namespace. */
    method PutAll(key: Key, value: Option<Raw>, merge: bool, ghost s: Store)
      requires AllHold(s)
      modifies this
      ensures AllHold(Put(s, key, value, merge))
      ensures Logged({key}, s, Put(s, key, value, merge))
    {
      written := written + multiset{key};
      for i := 0 to |dbs|
        invariant |dbs| == |old(dbs)| && written == old(written) + multiset{key}
        invariant forall j | 0 <= j < |dbs| :: dbs[j] == if j < i then Put(s, key, value, merge) else s
        invariant |old(states)| <= |states| && states[..|old(states)|] == old(states)
        invariant AllBetween(states[|old(states)|..], s, Put(s, key, value, merge))
      {
        dbs := dbs[i := Put(dbs[i], key, value, merge)];
        states := states + [dbs];
      }
    }

    /** mod_entry(key, None) for every key */
    method RemoveAll(keys: set<Key>, ghost s: Store)
      requires AllHold(s)
      modifies this
      ensures AllHold(s - keys)
      ensures Logged(keys, s, s - keys)
    {
      var todo := keys;
      assert s - (keys - todo) == s;
      while todo != {}
        invariant todo <= keys && AllHold(s - (keys - todo))
        invariant Logged(keys, s, s - keys)
      {
        var key :| key in todo;
        ghost var now := s - (keys - todo);
        label L:
        PutAll(key, None, true, now);
        todo := todo - {key};
        assert now - {key} == s - (keys - todo);
        ghost var more := states[|old@L(states)|..];
        Widen(more, now, now - {key}, s, s - keys);
        JoinLogs(old(states), old@L(states), states, s, s - keys);
      }
      assert keys - todo == keys;
    }

    function Picked(keys: set<Key>): Store {
      map k | k in keys && k in rulesInfo :: ToRaw(rulesInfo[k])
    }

    lemma PickOneMore(s: Store, keys: set<Key>, done: set<Key>, key: Key)
      requires done <= keys && key in keys && key in rulesInfo
      ensures (s + Picked(done))[key := ToRaw(rulesInfo[key])] == s + Picked(done + {key})
      ensures forall db :: Between(s + Picked(done), s + Picked(done + {key}), db) ==> Between(s, s + Picked(keys), db)
    {
      forall db | Between(s + Picked(done), s + Picked(done + {key}), db) ensures Between(s, s + Picked(keys), db) {
        forall k ensures Lookup(db, k) == Lookup(s, k) || Lookup(db, k) == Lookup(s + Picked(keys), k) {
          assert Lookup(db, k) == Lookup(s + Picked(done), k) || Lookup(db, k) == Lookup(s + Picked(done + {key}), k);
        }
      }
    }

    /** One compiled rule more. */
    method PutRule(keys: set<Key>, ghost done: set<Key>, key: Key, merge: bool, ghost s: Store)
      requires AllHold(s + Picked(done)) && done <= keys && key in keys && key in rulesInfo
      requires merge ==> key !in s + Picked(done)
      modifies this
      ensures AllHold(s + Picked(done + {key}))
      ensures Logged({key}, s, s + Picked(keys))
    {
      PickOneMore(s, keys, done, key);
      PutAll(key, Some(ToRaw(rulesInfo[key])), merge, s + Picked(done));
    }

    /** mod_entry of the compiled rule for every key, none of which is there yet */
    method AddAll(keys: set<Key>, ghost s: Store)
      requires AllHold(s) && keys <= rulesInfo.Keys && keys !! s.Keys
      modifies this
      ensures AllHold(s + Picked(keys))
      ensures Logged(keys, s, s + Picked(keys))
    {
      var todo := keys;
      assert s + Picked(keys - todo) == s;
      while todo != {}
        invariant todo <= keys && AllHold(s + Picked(keys - todo))
        invariant Logged(keys, s, s + Picked(keys))
      {
        var key :| key in todo;
        ghost var done := keys - todo;
        label L:
        PutRule(keys, done, key, true, s);
        todo := todo - {key};
        assert keys - todo == done + {key};
        JoinLogs(old(states), old@L(states), states, s, s + Picked(keys));
      }
      assert keys - todo == keys;
    }

    lemma PickUnchanged(s: Store, done: set<Key>, key: Key)
      requires key in s && key in snapshot && key in rulesInfo
      requires s[key] == snapshot[key] && rulesInfo[key] == FromRaw(snapshot[key])
      ensures s + Picked(done) == s + Picked(done + {key})
    {
      RawRoundTrip(snapshot[key]);
    }

    /** set_entry of the compiled rule for every key whose contents differ from what was read */
    method ReplaceChanged(keys: set<Key>, ghost s: Store)
      requires AllHold(s) && keys <= rulesInfo.Keys && keys <= snapshot.Keys && keys <= s.Keys
      requires forall k | k in keys :: s[k] == snapshot[k]
      modifies this
      ensures AllHold(s + Picked(keys))
      ensures Logged((set k | k in keys && rulesInfo[k] != FromRaw(snapshot[k])), s, s + Picked(keys))
    {
      var todo := keys;
      ghost var changed := set k | k in keys && rulesInfo[k] != FromRaw(snapshot[k]);
      assert s + Picked(keys - todo) == s;
      while todo != {}
        invariant todo <= keys && AllHold(s + Picked(keys - todo))
        invariant Logged(changed, s, s + Picked(keys))
      {
        var key :| key in todo;
        ghost var done := keys - todo;
        label L:
        if rulesInfo[key] != FromRaw(snapshot[key]) {
          PutRule(keys, done, key, false, s);
          JoinLogs(old(states), old@L(states), states, s, s + Picked(keys));
        } else {
          PickUnchanged(s, done, key);
        }
        todo := todo - {key};
        assert keys - todo == done + {key};
      }
      assert keys - todo == keys;
    }

    /** mod_config on one database, into which none of the rules merges with an older one */
    method ModConfig(i: nat)
      requires i < |dbs| && dbs[i].Keys !! rulesInfo.Keys
      modifies this
      ensures dbs == old(dbs)[i := old(dbs)[i] + Installed(rulesInfo)]
      ensures forall k | k !in rulesInfo :: written[k] == old(written)[k]
    {
      var todo := rulesInfo.Keys;
      assert old(dbs)[i] + Picked(rulesInfo.Keys - todo) == old(dbs)[i];
      while todo != {}
        invariant todo <= rulesInfo.Keys
        invariant dbs == old(dbs)[i := old(dbs)[i] + Picked(rulesInfo.Keys - todo)]
        invariant forall k | k !in rulesInfo :: written[k] == old(written)[k]
      {
        var key :| key in todo;
        PickOneMore(old(dbs)[i], rulesInfo.Keys, rulesInfo.Keys - todo, key);
        assert rulesInfo.Keys - (todo - {key}) == (rulesInfo.Keys - todo) + {key};
        dbs := dbs[i := Put(dbs[i], key, Some(ToRaw(rulesInfo[key])), true)];
        written := written + multiset{key};
        todo := todo - {key};
      }
      assert Picked(rulesInfo.Keys - todo) == Installed(rulesInfo);
    }

    /** full_update. With a table restriction, no rule of another table is ever written. */
    method FullUpdate()
      requires AllHold(snapshot)
      requires current.Some? ==> forall k | k in rulesInfo :: k.0 == current.value
      modifies this
      ensures AllHold(FullResult(snapshot, rulesInfo, current))
      ensures forall db | db in dbs :: HoldsRules(db, rulesInfo) && KeepsOthers(db, snapshot, rulesInfo, current)
      ensures forall k: Key | current.Some? && k.0 != current.value :: written[k] == old(written)[k]
    {
      var removed := set k | k in snapshot && (current.None? || current.value == k.0);
      RemoveAll(removed, snapshot);
      InstallEverywhere(snapshot - removed);
      assert snapshot - removed + Installed(rulesInfo) == FullResult(snapshot, rulesInfo, current);
      FullResultHolds(snapshot, rulesInfo, current);
    }

    /** mod_config on the global database and on each replica */
    method InstallEverywhere(ghost kept: Store)
      requires AllHold(kept) && kept.Keys !! rulesInfo.Keys
      modifies this
      ensures AllHold(kept + Installed(rulesInfo))
      ensures forall k | k !in rulesInfo :: written[k] == old(written)[k]
    {
      ghost var n := |dbs|;
      for i := 0 to |dbs|
        invariant |dbs| == n > 0
        invariant forall j | 0 <= j < n :: dbs[j] == if j < i then kept + Installed(rulesInfo) else kept
        invariant forall k | k !in rulesInfo :: written[k] == old(written)[k]
      {
        ModConfig(i);
      }
    }

    /** new_*_rules and current_*_rules: the keys of control-plane tables and the others; false for a KeyError */
    method SplitKeys(keys: set<Key>) returns (ok: bool, control: set<Key>, data: set<Key>)
      ensures ok <==> TablesExist(tables, keys)
      ensures ok ==> control == (set k | k in keys && ControlPlaneKey(tables, k)) && data == keys - control
    {
      control, data := {}, {};
      var todo := keys;
      while todo != {}
        invariant todo <= keys && TablesExist(tables, keys - todo)
        invariant control == (set k | k in keys - todo && ControlPlaneKey(tables, k)) && data == keys - todo - control
      {
        var key :| key in todo;
        if key.0 !in tables {
          return false, control, data;
        }
        if IsControlPlane(tables[key.0]) {
          control := control + {key};
        } else {
          data := data + {key};
        }
        todo := todo - {key};
      }
      assert keys - todo == keys;
      ok := true;
    }

    /** incremental_update; false stands for the KeyError of a rule whose table does not exist.
        Every database ends with exactly the compiled rules; meanwhile the control-plane rules that
        stay are never absent, and one whose contents stay is never written.
     */
    method IncrementalUpdate() returns (ok: bool)
      requires AllHold(snapshot)
      modifies this
      ensures ok <==> forall k | k in snapshot.Keys + rulesInfo.Keys :: k.0 in tables
      ensures ok ==> AllHold(Installed(rulesInfo))
      ensures ok ==> forall db | db in dbs :: HoldsRules(db, rulesInfo) && db.Keys == rulesInfo.Keys
      ensures !ok ==> dbs == old(dbs) && states == old(states) && written == old(written)
      ensures |old(states)| <= |states| && AllStand(states[|old(states)|..], tables, snapshot, rulesInfo)
      ensures forall n, i, k | |old(states)| <= n < |states| && 0 <= i < |states[n]|
        && Standing(tables, snapshot, rulesInfo, k) ::
        && k in states[n][i] && (states[n][i][k] == snapshot[k] || states[n][i][k] == ToRaw(rulesInfo[k]))
      ensures forall k | Standing(tables, snapshot, rulesInfo, k) && rulesInfo[k] == FromRaw(snapshot[k]) ::
        written[k] == old(written)[k]
    {
      var newControl, newData, curControl, curData;
      ok, newControl, newData := SplitKeys(rulesInfo.Keys);
      if !ok {
        return;
      }
      ok, curControl, curData := SplitKeys(snapshot.Keys);
      if !ok {
        return;
      }
      var added, removed, existing := newControl - curControl, curControl - newControl, rulesInfo.Keys * curControl;
      UpdatePhases(newData, curData, added, removed, existing);
      FullResultHolds(snapshot, rulesInfo, None);
      StandingStands(|old(states)|, states, tables, snapshot, rulesInfo);
    }

    /** The writing loops of incremental_update. */
    method UpdatePhases(newData: set<Key>, curData: set<Key>, added: set<Key>, removed: set<Key>, existing: set<Key>)
      requires AllHold(snapshot) && TablesExist(tables, snapshot.Keys + rulesInfo.Keys)
      requires newData == set k | k in rulesInfo && !ControlPlaneKey(tables, k)
      requires curData == set k | k in snapshot && !ControlPlaneKey(tables, k)
      requires added == set k | k in rulesInfo && ControlPlaneKey(tables, k) && k !in snapshot
      requires removed == set k | k in snapshot && ControlPlaneKey(tables, k) && k !in rulesInfo
      requires existing == set k | k in rulesInfo && k in snapshot && ControlPlaneKey(tables, k)
      modifies this
      ensures AllHold(Installed(rulesInfo))
      ensures |old(states)| <= |states| && AllStand(states[|old(states)|..], tables, snapshot, rulesInfo)
      ensures forall k | k in existing && rulesInfo[k] == FromRaw(snapshot[k]) :: written[k] == old(written)[k]
    {
      ghost var s1, s2, s3, s4 := PhaseStores(newData, curData, added, removed, existing);
      RemoveAll(curData, snapshot);
      JoinStanding(old(states), old(states), states, snapshot, s1);
      label L1:
      AddAll(newData, s1);
      JoinStanding(old(states), old@L1(states), states, s1, s2);
      label L2:
      AddAll(added, s2);
      JoinStanding(old(states), old@L2(states), states, s2, s3);
      label L3:
      RemoveAll(removed, s3);
      JoinStanding(old(states), old@L3(states), states, s3, s4);
      label L4:
      ReplaceChanged(existing, s4);
      JoinStanding(old(states), old@L4(states), states, s4, Installed(rulesInfo));
    }

    /** The rules between the phases. */
    lemma PhaseStores(newData: set<Key>, curData: set<Key>, added: set<Key>, removed: set<Key>, existing: set<Key>)
      returns (s1: Store, s2: Store, s3: Store, s4: Store)
      requires newData == set k | k in rulesInfo && !ControlPlaneKey(tables, k)
      requires curData == set k | k in snapshot && !ControlPlaneKey(tables, k)
      requires added == set k | k in rulesInfo && ControlPlaneKey(tables, k) && k !in snapshot
      requires removed == set k | k in snapshot && ControlPlaneKey(tables, k) && k !in rulesInfo
      requires existing == set k | k in rulesInfo && k in snapshot && ControlPlaneKey(tables, k)
      ensures s1 == snapshot - curData && newData <= rulesInfo.Keys && newData !! s1.Keys
      ensures s2 == s1 + Picked(newData) && added <= rulesInfo.Keys && added !! s2.Keys
      ensures s3 == s2 + Picked(added) && s4 == s3 - removed
      ensures existing <= rulesInfo.Keys && existing <= snapshot.Keys && existing <= s4.Keys
      ensures forall k | k in existing :: s1[k] == s2[k] == s3[k] == s4[k] == snapshot[k]
      ensures s4 + Picked(existing) == Installed(rulesInfo)
      ensures forall s | s in {snapshot, s1, s2, s3, s4, Installed(rulesInfo)} ::
        RuleStands(tables, snapshot, rulesInfo, s)
    {
      s1 := snapshot - curData;
      s2 := s1 + Picked(newData);
      s3 := s2 + Picked(added);
      s4 := s3 - removed;
      forall k | k in existing
        ensures k in s1 && k in s2 && k in s3 && k in s4 && s1[k] == s2[k] == s3[k] == s4[k] == snapshot[k] {
        assert k !in curData && k !in newData && k !in added && k !in removed;
      }
      assert s4 + Picked(existing) == Installed(rulesInfo) by {
        PhasesAddUp(newData, curData, added, removed, existing);
      }
    }

    lemma PhasesAddUp(newData: set<Key>, curData: set<Key>, added: set<Key>, removed: set<Key>, existing: set<Key>)
      requires newData == set k | k in rulesInfo && !ControlPlaneKey(tables, k)
      requires curData == set k | k in snapshot && !ControlPlaneKey(tables, k)
      requires added == set k | k in rulesInfo && ControlPlaneKey(tables, k) && k !in snapshot
      requires removed == set k | k in snapshot && ControlPlaneKey(tables, k) && k !in rulesInfo
      requires existing == set k | k in rulesInfo && k in snapshot && ControlPlaneKey(tables, k)
      ensures snapshot - curData + Picked(newData) + Picked(added) - removed + Picked(existing) == Installed(rulesInfo)
    {
      SameLookups(snapshot - curData + Picked(newData) + Picked(added) - removed
        + Picked(existing), Installed(rulesInfo));
    }

    lemma JoinStanding(first: seq<seq<Store>>, middle: seq<seq<Store>>, last: seq<seq<Store>>, a: Store, b: Store)
      requires |first| <= |middle| <= |last| && last[..|middle|] == middle
      requires AllStand(middle[|first|..], tables, snapshot, rulesInfo)
      requires AllBetween(last[|middle|..], a, b)
      requires RuleStands(tables, snapshot, rulesInfo, a) && RuleStands(tables, snapshot, rulesInfo, b)
      ensures AllStand(last[|first|..], tables, snapshot, rulesInfo)
    {
      forall n, i | 0 <= n < |last[|first|..]| && 0 <= i < |last[|first|..][n]|
        ensures RuleStands(tables, snapshot, rulesInfo, last[|first|..][n][i])
      {
        if |first| + n < |middle| {
          assert last[|first|..][n] == middle[|first|..][n];
        } else {
          assert last[|first|..][n] == last[|middle|..][|first| + n - |middle|];
          var db := last[|first|..][n][i];
          assert Between(a, b, db);
          forall k | k in snapshot && k in rulesInfo && ControlPlaneKey(tables, k)
            ensures k in db && (db[k] == snapshot[k] || db[k] == ToRaw(rulesInfo[k]))
          {
            assert Lookup(db, k) == Lookup(a, k) || Lookup(db, k) == Lookup(b, k);
          }
        }
      }
    }
  }

  lemma RawRoundTrip(r: Raw)
    ensures ToRaw(FromRaw(r)) == r
  {
  }

  /** Without a table restriction both updates end with the same rules: the compiled ones. */
  lemma UpdatesAgree(snapshot: Store, rules: Rules)
    ensures FullResult(snapshot, rules, None) == Installed(rules)
  {
  }

  /** incremental_update does not look at the restriction: under one, it agrees with the full update
      exactly when no other table has rules, because it deletes those.
   */
  lemma RestrictedUpdatesAgreeIff(snapshot: Store, rules: Rules, table: string)
    requires forall k | k in rules :: k.0 == table
    ensures FullResult(snapshot, rules, Some(table)) == Installed(rules) <==> forall k | k in snapshot :: k.0 == table
  {
    if k :| k in snapshot && k.0 != table {
      assert k in FullResult(snapshot, rules, Some(table)) && k !in Installed(rules);
    } else {
      assert FullResult(snapshot, rules, Some(table)) == Installed(rules);
    }
  }

  /** In every one of these states, every database lies between a and b. */
  ghost predicate AllBetween(states: seq<seq<Store>>, a: Store, b: Store) {
    forall n, i | 0 <= n < |states| && 0 <= i < |states[n]| :: Between(a, b, states[n][i])
  }

  /** In every one of these states, every database holds the control-plane rules that stay. */
  ghost predicate AllStand(states: seq<seq<Store>>, tables: Tables, snapshot: Store, rules: Rules) {
    forall n, i | 0 <= n < |states| && 0 <= i < |states[n]| :: RuleStands(tables, snapshot, rules, states[n][i])
  }

  lemma StandingStands(from: nat, states: seq<seq<Store>>, tables: Tables, snapshot: Store, rules: Rules)
    requires from <= |states| && AllStand(states[from..], tables, snapshot, rules)
    ensures forall k :: Standing(tables, snapshot, rules, k) <==>
      k in snapshot && k in rules && ControlPlaneKey(tables, k)
    ensures forall n, i, k | from <= n < |states| && 0 <= i < |states[n]| && Standing(tables, snapshot, rules, k) ::
      && k in states[n][i] && (states[n][i][k] == snapshot[k] || states[n][i][k] == ToRaw(rules[k]))
  {
    forall k ensures Standing(tables, snapshot, rules, k) <==>
      k in snapshot && k in rules && ControlPlaneKey(tables, k)
    {
      if k.0 in tables { KindsApart(tables[k.0]); }
    }
    forall n, i, k | from <= n < |states| && 0 <= i < |states[n]| && Standing(tables, snapshot, rules, k)
      ensures k in states[n][i] && (states[n][i][k] == snapshot[k] || states[n][i][k] == ToRaw(rules[k]))
    {
      assert states[from..][n - from] == states[n];
      assert RuleStands(tables, snapshot, rules, states[from..][n - from][i]);
    }
  }

  lemma Widen(states: seq<seq<Store>>, a: Store, b: Store, a': Store, b': Store)
    requires AllBetween(states, a, b)
    requires Between(a', b', a) && Between(a', b', b)
    ensures AllBetween(states, a', b')
  {
    forall n, i | 0 <= n < |states| && 0 <= i < |states[n]| ensures Between(a', b', states[n][i]) {
      var db := states[n][i];
      assert Between(a, b, db);
      forall k ensures Lookup(db, k) == Lookup(a', k) || Lookup(db, k) == Lookup(b', k) {
        assert Lookup(db, k) == Lookup(a, k) || Lookup(db, k) == Lookup(b, k);
      }
    }
  }

  lemma JoinLogs(first: seq<seq<Store>>, middle: seq<seq<Store>>, last: seq<seq<Store>>, a: Store, b: Store)
    requires |first| <= |middle| <= |last| && last[..|middle|] == middle
    requires AllBetween(middle[|first|..], a, b) && AllBetween(last[|middle|..], a, b)
    ensures AllBetween(last[|first|..], a, b)
  {
    forall n, i | 0 <= n < |last[|first|..]| && 0 <= i < |last[|first|..][n]|
      ensures Between(a, b, last[|first|..][n][i])
    {
      if |first| + n < |middle| {
        assert last[|first|..][n] == middle[|first|..][n];
      } else {
        assert last[|first|..][n] == last[|middle|..][|first| + n - |middle|];
      }
    }
  }
}
