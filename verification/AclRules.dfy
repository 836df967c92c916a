/** Compiling OpenConfig ACL sets into Config DB rules: an ordered list of entries becomes a table
    of rules with priorities.
 */
module AclRules {
  import opened JsonTree
  import opened Decimal

  /** A property of a compiled rule; the store only keeps text. */
  datatype Property = TextProp(text: string) | NumberProp(number: int)

  type Props = map<string, Property>
  type Key = (string, string)
  type Rules = map<Key, Props>

  /** An entry of ACL_TABLE. */
  datatype TableInfo = TableInfo(kind: string, stage: Option<string>)
  type Tables = map<string, TableInfo>

  const MIN_PRIORITY := 1
  const ETHERTYPE_IPV4 := 2048

  function UpperChar(c: char): char {
    if 'a' <= c <= 'z' then (c as int - 32) as char else c
  }

  /** str.upper() on ASCII text. */
  function Upper(s: string): string {
    if s == "" then "" else [UpperChar(s[0])] + Upper(s[1..])
  }

  /** The table name of an ACL set: spaces and dashes become underscores, letters become capitals. */
  function TableName(setName: string): string {
    if setName == "" then ""
    else [if setName[0] in " -" then '_' else UpperChar(setName[0])] + TableName(setName[1..])
  }

  predicate IsMirror(t: TableInfo) {
    "MIRROR" <= Upper(t.kind)
  }

  predicate IsL3(t: TableInfo) {
    Upper(t.kind) == "L3"
  }

  predicate IsL3v6(t: TableInfo) {
    Upper(t.kind) == "L3V6"
  }

  predicate IsIpv6(t: TableInfo) {
    Upper(t.kind) in {"L3V6", "MIRRORV6"}
  }

  predicate IsControlPlane(t: TableInfo) {
    Upper(t.kind) == "CTRLPLANE"
  }

  predicate IsEgress(t: TableInfo) {
    t.stage.Some? && Upper(t.stage.value) == "EGRESS"
  }

  /** An OpenConfig entry. `body` stands for its action and match fields. */
  datatype Entry<M> = Entry(sequenceId: nat, body: M)

  /** The converters of action, layer 2, IP, ICMP, transport and input interface, in one:
      None is an AclLoaderException. None of them produces a priority.
   */
  type Converter<!M> = (TableInfo, M) -> Option<Props>

  ghost predicate NeverPriority<M(!new)>(convert: Converter<M>) {
    forall t, b :: convert(t, b).Some? ==> "PRIORITY" !in convert(t, b).value
  }

  function RuleKey(table: string, sequenceId: nat): Key {
    (table, "RULE_" + Text(sequenceId))
  }

  function DenyKey(table: string): Key {
    (table, "DEFAULT_RULE")
  }

  /** The default ip type match of a data plane table, which the entry's own fields may override. */
  function DefaultMatch(t: TableInfo): Props {
    if IsL3v6(t) then map["IP_TYPE" := TextProp("IPV6ANY")]
    else if IsL3(t) then map["ETHER_TYPE" := TextProp(Text(ETHERTYPE_IPV4))]
    else map[]
  }

  /** convert_rule_to_db_schema, without the key */
  function Converted<M>(convert: Converter<M>, maxPriority: int, t: TableInfo, e: Entry<M>): Option<Props> {
    var fields := convert(t, e.body);
    if fields.None? then None
    else Some(map["PRIORITY" := TextProp(Text(maxPriority - e.sequenceId))] + DefaultMatch(t) + fields.value)
  }

  /** deny_rule, without the key */
  function DenyProps(t: TableInfo): Props {
    map["PRIORITY" := TextProp(Text(MIN_PRIORITY)), "PACKET_ACTION" := TextProp("DROP")]
    + if IsIpv6(t) then map["IP_TYPE" := TextProp("IPV6ANY")]
      else map["ETHER_TYPE" := TextProp(Text(ETHERTYPE_IPV4))]
  }

  /** deep_update for one rule: its properties are merged into those already under the key. */
  function DeepUpdate(rules: Rules, key: Key, props: Props): Rules {
    rules[key := (if key in rules then rules[key] else map[]) + props]
  }

  /** An ACL set with its entries in the order of the file. */
  datatype AclSet<M> = AclSet(name: string, entries: seq<Entry<M>>)

  /** The rules after the given entries of one set; an entry that cannot be converted is skipped. */
  function EntryRules<M>(convert: Converter<M>, maxPriority: int, table: string, t: TableInfo, entries: seq<Entry<M>>,
                         rules: Rules): Rules
    decreases |entries|
  {
    if entries == [] then rules
    else
      var before := EntryRules(convert, maxPriority, table, t, entries[..|entries| - 1], rules);
      var last := entries[|entries| - 1];
      var props := Converted(convert, maxPriority, t, last);
      if props.None? then before else DeepUpdate(before, RuleKey(table, last.sequenceId), props.value)
  }

  /** A set is compiled if its table exists and is not ruled out by the table restriction. */
  predicate Compiled(tables: Tables, current: Option<string>, setName: string) {
    TableName(setName) in tables && (current.None? || current.value == TableName(setName))
  }

  predicate HasDeny(t: TableInfo) {
    !IsMirror(t) && !IsEgress(t)
  }

  function SetRules<M>(convert: Converter<M>, maxPriority: int, tables: Tables, current: Option<string>, s: AclSet<M>,
                       rules: Rules): Rules
  {
    var table := TableName(s.name);
    if !Compiled(tables, current, s.name) then rules
    else
      var all := EntryRules(convert, maxPriority, table, tables[table], s.entries, rules);
      if HasDeny(tables[table]) then DeepUpdate(all, DenyKey(table), DenyProps(tables[table])) else all
  }

  /** The rules that convert_rules builds. */
  function RulesInfo<M>(convert: Converter<M>, maxPriority: int, tables: Tables, current: Option<string>,
                        sets: seq<AclSet<M>>): Rules
    decreases |sets|
  {
    if sets == [] then map[]
    else SetRules(convert, maxPriority, tables, current, sets[|sets| - 1],
                  RulesInfo(convert, maxPriority, tables, current, sets[..|sets| - 1]))
  }

  // ---------- First match ----------

  /** The priority the switch reads from a rule. */
  function Priority(p: Props): Option<int> {
    if "PRIORITY" in p && p["PRIORITY"].TextProp? && p["PRIORITY"].text != ""
      && (AllDigits(p["PRIORITY"].text) || (p["PRIORITY"].text[0] == '-' && AllDigits(p["PRIORITY"].text[1..])))
    then Some(Number(p["PRIORITY"].text)) else None
  }

  /** Sequence ids tell the entries of a set apart. */
  predicate DistinctIds<M>(entries: seq<Entry<M>>) {
    forall i, j | 0 <= i < j < |entries| :: entries[i].sequenceId != entries[j].sequenceId
  }

  /** No two sets compile into the same table. */
  predicate DistinctTables<M>(sets: seq<AclSet<M>>) {
    forall i, j | 0 <= i < j < |sets| :: TableName(sets[i].name) != TableName(sets[j].name)
  }

  lemma KeysApart(table: string, a: nat, b: nat)
    ensures RuleKey(table, a) == RuleKey(table, b) <==> a == b
    ensures RuleKey(table, a) != DenyKey(table)
  {
    TextInjective(a, b);
    assert RuleKey(table, a).1[5..] == Text(a) && RuleKey(table, b).1[5..] == Text(b);
    assert RuleKey(table, a).1[0] == 'R' && DenyKey(table).1[0] == 'D';
  }

  /** Under a table's name there are only keys of its entries. */
  lemma {:induction false} EntryKeys<M>(convert: Converter<M>, maxPriority: int, table: string, t: TableInfo,
                                        entries: seq<Entry<M>>, rules: Rules, key: Key) returns (i: int)
    requires forall k | k in rules :: k.0 != table
    requires key.0 == table && key in EntryRules(convert, maxPriority, table, t, entries, rules)
    ensures 0 <= i < |entries| && key == RuleKey(table, entries[i].sequenceId)
    decreases |entries|
  {
    var last := entries[|entries| - 1];
    if key == RuleKey(table, last.sequenceId) {
      i := |entries| - 1;
    } else {
      i := EntryKeys(convert, maxPriority, table, t, entries[..|entries| - 1], rules, key);
    }
  }

  /** The n-th entry is the last one with its key, so it is alone under it. */
  lemma FreshKey<M>(convert: Converter<M>, maxPriority: int, table: string, t: TableInfo, entries: seq<Entry<M>>,
                    rules: Rules)
    requires DistinctIds(entries) && entries != [] && forall k | k in rules :: k.0 != table
    ensures RuleKey(table, entries[|entries| - 1].sequenceId)
        !in EntryRules(convert, maxPriority, table, t, entries[..|entries| - 1], rules)
  {
    var n := |entries| - 1;
    var key := RuleKey(table, entries[n].sequenceId);
    if key in EntryRules(convert, maxPriority, table, t, entries[..n], rules) {
      var i := EntryKeys(convert, maxPriority, table, t, entries[..n], rules, key);
      KeysApart(table, entries[i].sequenceId, entries[n].sequenceId);
    }
  }

  /** Every rule of the table is what one of its entries yields. */
  lemma {:induction false} EntryRulesFrom<M>(convert: Converter<M>, maxPriority: int, table: string, t: TableInfo,
                                             entries: seq<Entry<M>>, rules: Rules, key: Key) returns (i: int)
    requires DistinctIds(entries) && forall k | k in rules :: k.0 != table
    requires key.0 == table && key in EntryRules(convert, maxPriority, table, t, entries, rules)
    ensures Yields(convert, maxPriority, table, t, entries, i, key,
      EntryRules(convert, maxPriority, table, t, entries, rules)[key])
    decreases |entries|
  {
    var most, last := entries[..|entries| - 1], entries[|entries| - 1];
    FreshKey(convert, maxPriority, table, t, entries, rules);
    if key == RuleKey(table, last.sequenceId) {
      i := |entries| - 1;
      var props := Converted(convert, maxPriority, t, last);
      assert props.Some? ==> (map[] + props.value) == props.value;
    } else {
      i := EntryRulesFrom(convert, maxPriority, table, t, most, rules, key);
      assert entries[i] == most[i];
    }
  }

  /** Every entry that converts yields a rule of the table. */
  lemma {:induction false} EntryRulesHave<M>(convert: Converter<M>, maxPriority: int, table: string, t: TableInfo,
                                             entries: seq<Entry<M>>, rules: Rules, i: nat)
    requires i < |entries| && Converted(convert, maxPriority, t, entries[i]).Some?
    ensures RuleKey(table, entries[i].sequenceId) in EntryRules(convert, maxPriority, table, t, entries, rules)
    decreases |entries|
  {
    if i < |entries| - 1 {
      EntryRulesHave(convert, maxPriority, table, t, entries[..|entries| - 1], rules, i);
    }
  }

  /** The i-th entry compiles to these properties under this key. */
  predicate Yields<M>(convert: Converter<M>, maxPriority: int, table: string, t: TableInfo, entries: seq<Entry<M>>,
                      i: int,
                      key: Key, props: Props)
  {
    && 0 <= i < |entries| && key == RuleKey(table, entries[i].sequenceId)
    && Converted(convert, maxPriority, t, entries[i]) == Some(props)
  }

  /** A set leaves the rules of all other tables alone. */
  lemma SetRulesElsewhere<M>(convert: Converter<M>, maxPriority: int, tables: Tables, current: Option<string>,
                             s: AclSet<M>,
                             rules: Rules, key: Key)
    requires key.0 != TableName(s.name)
    ensures Lookup(SetRules(convert, maxPriority, tables, current, s, rules), key) == Lookup(rules, key)
  {
    if Compiled(tables, current, s.name) {
      EntryRulesElsewhere(convert, maxPriority, TableName(s.name), tables[TableName(s.name)], s.entries, rules, key);
    }
  }

  lemma {:induction false} EntryRulesElsewhere<M>(convert: Converter<M>, maxPriority: int, table: string, t: TableInfo,
                                                  entries: seq<Entry<M>>, rules: Rules, key: Key)
    requires key.0 != table
    ensures Lookup(EntryRules(convert, maxPriority, table, t, entries, rules), key) == Lookup(rules, key)
    decreases |entries|
  {
    if entries != [] {
      EntryRulesElsewhere(convert, maxPriority, table, t, entries[..|entries| - 1], rules, key);
    }
  }

  /** A table that no set compiles into gets no rules; a restricted compilation only fills its own table. */
  lemma {:induction false} OnlyCompiledTables<M>(convert: Converter<M>, maxPriority: int, tables: Tables,
                                                 current: Option<string>,
                                                 sets: seq<AclSet<M>>, key: Key)
    requires key in RulesInfo(convert, maxPriority, tables, current, sets)
    ensures exists i :: 0 <= i < |sets| && TableName(sets[i].name) == key.0 && Compiled(tables, current, sets[i].name)
    ensures key.0 in tables && (current.Some? ==> key.0 == current.value)
    decreases |sets|
  {
    if sets != [] {
      var most, last := sets[..|sets| - 1], sets[|sets| - 1];
      if TableName(last.name) != key.0 || !Compiled(tables, current, last.name) {
        if TableName(last.name) != key.0 {
          SetRulesElsewhere(convert, maxPriority, tables, current, last,
            RulesInfo(convert, maxPriority, tables, current, most), key);
        }
        OnlyCompiledTables(convert, maxPriority, tables, current, most, key);
        var i :| 0 <= i < |most| && TableName(most[i].name) == key.0 && Compiled(tables, current, most[i].name);
        assert sets[i] == most[i];
      }
    }
  }

  /** The rules of the table that the i-th set compiles into are those of that set alone. */
  lemma {:induction false} RulesOfTable<M>(convert: Converter<M>, maxPriority: int, tables: Tables,
                                           current: Option<string>,
                                           sets: seq<AclSet<M>>, i: nat, key: Key)
    requires DistinctTables(sets) && i < |sets| && key.0 == TableName(sets[i].name) && DistinctIds(sets[i].entries)
    requires Compiled(tables, current, sets[i].name)
    ensures
      var rules := RulesInfo(convert, maxPriority, tables, current, sets);
      var t := tables[key.0];
      && (key in rules ==>
            || (key == DenyKey(key.0) && HasDeny(t) && rules[key] == DenyProps(t))
            || exists j :: Yields(convert, maxPriority, key.0, t, sets[i].entries, j, key, rules[key]))
      && (key == DenyKey(key.0) && HasDeny(t) ==> key in rules)
      && (forall j | 0 <= j < |sets[i].entries| && Converted(convert, maxPriority, t, sets[i].entries[j]).Some?
             && key == RuleKey(key.0, sets[i].entries[j].sequenceId) :: key in rules)
    decreases |sets|
  {
    var most, last := sets[..|sets| - 1], sets[|sets| - 1];
    var before := RulesInfo(convert, maxPriority, tables, current, most);
    if i < |most| {
      assert most[i] == sets[i];
      RulesOfTable(convert, maxPriority, tables, current, most, i, key);
      SetRulesElsewhere(convert, maxPriority, tables, current, last, before, key);
    } else {
      forall k | k in before ensures k.0 != key.0 {
        if k.0 == key.0 {
          OnlyCompiledTables(convert, maxPriority, tables, current, most, k);
        }
      }
      LastTableRules(convert, maxPriority, tables, current, last, before, key);
    }
  }

  lemma LastTableRules<M>(convert: Converter<M>, maxPriority: int, tables: Tables, current: Option<string>,
                          s: AclSet<M>, before: Rules, key: Key)
    requires key.0 == TableName(s.name) && DistinctIds(s.entries) && Compiled(tables, current, s.name)
    requires forall k | k in before :: k.0 != key.0
    ensures
      var rules := SetRules(convert, maxPriority, tables, current, s, before);
      var t := tables[key.0];
      && (key in rules ==>
            || (key == DenyKey(key.0) && HasDeny(t) && rules[key] == DenyProps(t))
            || exists j :: Yields(convert, maxPriority, key.0, t, s.entries, j, key, rules[key]))
      && (key == DenyKey(key.0) && HasDeny(t) ==> key in rules)
      && (forall j | 0 <= j < |s.entries| && Converted(convert, maxPriority, t, s.entries[j]).Some?
             && key == RuleKey(key.0, s.entries[j].sequenceId) :: key in rules)
  {
    var t := tables[key.0];
    var all := EntryRules(convert, maxPriority, key.0, t, s.entries, before);
    if DenyKey(key.0) in all {
      var n := EntryKeys(convert, maxPriority, key.0, t, s.entries, before, DenyKey(key.0));
      KeysApart(key.0, s.entries[n].sequenceId, 0);
    }
    assert map[] + DenyProps(t) == DenyProps(t);
    if key in all {
      var j := EntryRulesFrom(convert, maxPriority, key.0, t, s.entries, before, key);
    }
    forall j | 0 <= j < |s.entries| && Converted(convert, maxPriority, t, s.entries[j]).Some?
      && key == RuleKey(key.0, s.entries[j].sequenceId)
      ensures key in all
    {
      EntryRulesHave(convert, maxPriority, key.0, t, s.entries, before, j);
    }
  }

  // ---------- What a table is compiled to ----------

  /** kind is one of the names of a table type, in any case */
  predicate IsKind(t: TableInfo, name: string) {
    SameButCase(t.kind, name)
  }

  predicate IsMirrorKind(t: TableInfo) {
    |t.kind| >= 6 && SameButCase(t.kind[..6], "MIRROR")
  }

  predicate IsEgressStage(t: TableInfo) {
    t.stage.Some? && SameButCase(t.stage.value, "EGRESS")
  }

  lemma {:induction false} UpperIs(s: string, name: string)
    requires forall c | c in name :: !('a' <= c <= 'z')
    ensures Upper(s) == name <==> SameButCase(s, name)
    ensures |Upper(s)| == |s|
    decreases |s|
  {
    if s != "" {
      if name != "" {
        forall c | c in name[1..] ensures c in name { }
        UpperIs(s[1..], name[1..]);
        assert name[0] in name;
        assert Upper(s)[0] == UpperChar(s[0]) && Upper(s)[1..] == Upper(s[1..]);
        assert Upper(s) == name <==> UpperChar(s[0]) == name[0] && Upper(s[1..]) == name[1..];
        assert UpperChar(s[0]) == name[0] <==> SameLetter(s[0], name[0]);
        SameButCaseStep(s, name);
      } else {
        UpperIs(s[1..], name);
      }
    }
  }

  lemma SameButCaseStep(s: string, t: string)
    requires s != "" && t != ""
    ensures SameButCase(s, t) <==> SameLetter(s[0], t[0]) && SameButCase(s[1..], t[1..])
  {
    if SameButCase(s, t) {
      forall i | 0 <= i < |s[1..]| ensures SameLetter(s[1..][i], t[1..][i]) {
        assert SameLetter(s[i + 1], t[i + 1]);
      }
      assert SameLetter(s[0], t[0]);
    }
    if SameLetter(s[0], t[0]) && SameButCase(s[1..], t[1..]) {
      forall i | 0 <= i < |s| ensures SameLetter(s[i], t[i]) {
        if i > 0 { assert SameLetter(s[1..][i - 1], t[1..][i - 1]); }
      }
    }
  }

  lemma {:induction false} UpperPrefix(s: string, n: nat)
    requires n <= |s|
    ensures |Upper(s)| == |s| && Upper(s)[..n] == Upper(s[..n])
    decreases |s|
  {
    if s != "" {
      UpperPrefix(s[1..], if n == 0 then 0 else n - 1);
      if n > 0 {
        assert s[..n][1..] == s[1..][..n - 1];
        assert Upper(s) == [UpperChar(s[0])] + Upper(s[1..]);
        assert Upper(s[..n]) == [UpperChar(s[0])] + Upper(s[..n][1..]);
        assert Upper(s)[..n] == [UpperChar(s[0])] + Upper(s[1..])[..n - 1];
      }
    }
  }

  /** Table types and stages are told apart whatever their case. */
  lemma KindsApart(t: TableInfo)
    ensures IsMirror(t) <==> IsMirrorKind(t)
    ensures IsEgress(t) <==> IsEgressStage(t)
    ensures IsL3(t) <==> IsKind(t, "L3")
    ensures IsL3v6(t) <==> IsKind(t, "L3V6")
    ensures IsIpv6(t) <==> IsKind(t, "L3V6") || IsKind(t, "MIRRORV6")
    ensures IsControlPlane(t) <==> IsKind(t, "CTRLPLANE")
  {
    UpperIs(t.kind, "L3");
    UpperIs(t.kind, "L3V6");
    UpperIs(t.kind, "MIRRORV6");
    UpperIs(t.kind, "CTRLPLANE");
    UpperPrefix(t.kind, if |t.kind| >= 6 then 6 else 0);
    if |t.kind| >= 6 { UpperIs(t.kind[..6], "MIRROR"); }
    if t.stage.Some? { UpperIs(t.stage.value, "EGRESS"); }
  }

  /** The table name of a set has its letters in capitals, and an underscore for each space and dash. */
  lemma {:induction false} TableNameAt(setName: string)
    ensures |TableName(setName)| == |setName|
    ensures forall i | 0 <= i < |setName| ::
      var c, d := setName[i], TableName(setName)[i];
      if c == ' ' || c == '-' then d == '_' else SameLetter(c, d) && !('a' <= d <= 'z')
  {
    if setName != "" {
      TableNameAt(setName[1..]);
      var rest := TableName(setName[1..]);
      assert TableName(setName)[1..] == rest;
      forall i | 0 < i < |setName| ensures setName[i] == setName[1..][i - 1] && TableName(setName)[i] == rest[i - 1] {
      }
    }
  }

  /** The default deny: it drops every packet of its IP version, below all rules. */
  predicate IsDeny(t: TableInfo, props: Props) {
    && props.Keys == {"PRIORITY", "PACKET_ACTION"}
                     + (if IsKind(t, "L3V6") || IsKind(t, "MIRRORV6") then {"IP_TYPE"} else {"ETHER_TYPE"})
    && props["PRIORITY"] == TextProp("1") && props["PACKET_ACTION"] == TextProp("DROP")
    && ("IP_TYPE" in props ==> props["IP_TYPE"] == TextProp("IPV6ANY"))
    && ("ETHER_TYPE" in props ==> props["ETHER_TYPE"] == TextProp("2048"))
  }

  /** The rule of an entry: every field that the converter gave, its priority, the default match of its kind of table
      where no field stands in its place, and nothing else.
   */
  predicate IsRule(t: TableInfo, priority: int, fields: Props, props: Props) {
    && props.Keys == fields.Keys + {"PRIORITY"} + (if IsKind(t, "L3V6") then {"IP_TYPE"} else {})
                     + (if IsKind(t, "L3") then {"ETHER_TYPE"} else {})
    && (forall f | f in fields :: props[f] == fields[f])
    && ("PRIORITY" !in fields ==> props["PRIORITY"] == TextProp(Text(priority)))
    && (IsKind(t, "L3V6") && "IP_TYPE" !in fields ==> props["IP_TYPE"] == TextProp("IPV6ANY"))
    && (IsKind(t, "L3") && "ETHER_TYPE" !in fields ==> props["ETHER_TYPE"] == TextProp("2048"))
  }

  /** Under the name of the table stand the rules of its entries that convert, and, unless it is a mirror or an egress
      table, the default deny.
   */
  ghost predicate IsCompiledSet<M>(convert: Converter<M>, maxPriority: int, t: TableInfo, table: string,
                                   entries: seq<Entry<M>>, rules: Rules)
  {
    && ((table, "DEFAULT_RULE") in rules <==> !IsMirrorKind(t) && !IsEgressStage(t))
    && ((table, "DEFAULT_RULE") in rules ==> IsDeny(t, rules[(table, "DEFAULT_RULE")]))
    && (forall e | e in entries && convert(t, e.body).Some? ::
          var key := (table, "RULE_" + Text(e.sequenceId));
          key in rules && IsRule(t, maxPriority - e.sequenceId, convert(t, e.body).value, rules[key]))
    && (forall key | key in rules && key.0 == table && key.1 != "DEFAULT_RULE" ::
          exists e | e in entries :: convert(t, e.body).Some? && key.1 == "RULE_" + Text(e.sequenceId))
  }

  lemma DenyIsDeny(t: TableInfo)
    ensures IsDeny(t, DenyProps(t))
  {
    KindsApart(t);
    TextsOfConstants();
  }

  lemma TextsOfConstants()
    ensures Text(MIN_PRIORITY) == "1" && Text(ETHERTYPE_IPV4) == "2048"
  {
    assert Digits(2) == "2" && Digits(20) == "20" && Digits(204) == "204";
  }

  lemma ConvertedIsRule<M>(convert: Converter<M>, maxPriority: int, t: TableInfo, e: Entry<M>)
    requires convert(t, e.body).Some?
    ensures Converted(convert, maxPriority, t, e).Some?
    ensures IsRule(t, maxPriority - e.sequenceId, convert(t, e.body).value, Converted(convert, maxPriority, t, e).value)
  {
    KindsApart(t);
    TextsOfConstants();
  }

  lemma DenyIsCompiled<M>(convert: Converter<M>, maxPriority: int, tables: Tables, current: Option<string>,
                          sets: seq<AclSet<M>>, i: nat)
    requires DistinctTables(sets) && i < |sets| && DistinctIds(sets[i].entries)
    requires Compiled(tables, current, sets[i].name)
    ensures
      var table := TableName(sets[i].name);
      var rules := RulesInfo(convert, maxPriority, tables, current, sets);
      && (DenyKey(table) in rules <==> HasDeny(tables[table]))
      && (DenyKey(table) in rules ==> rules[DenyKey(table)] == DenyProps(tables[table]))
  {
    var table, entries := TableName(sets[i].name), sets[i].entries;
    RulesOfTable(convert, maxPriority, tables, current, sets, i, DenyKey(table));
    forall n | 0 <= n < |entries| ensures RuleKey(table, entries[n].sequenceId) != DenyKey(table) {
      KeysApart(table, entries[n].sequenceId, 0);
    }
  }

  lemma YieldsOnce<M>(convert: Converter<M>, maxPriority: int, table: string, t: TableInfo, entries: seq<Entry<M>>,
                      m: int, n: nat, props: Props)
    requires DistinctIds(entries) && n < |entries|
    requires Yields(convert, maxPriority, table, t, entries, m, RuleKey(table, entries[n].sequenceId), props)
    ensures Converted(convert, maxPriority, t, entries[n]) == Some(props)
  {
    KeysApart(table, entries[m].sequenceId, entries[n].sequenceId);
  }

  lemma EntryIsCompiled<M>(convert: Converter<M>, maxPriority: int, tables: Tables, current: Option<string>,
                           sets: seq<AclSet<M>>, i: nat, n: nat)
    requires DistinctTables(sets) && i < |sets| && DistinctIds(sets[i].entries)
    requires Compiled(tables, current, sets[i].name)
    requires n < |sets[i].entries|
    requires Converted(convert, maxPriority, tables[TableName(sets[i].name)], sets[i].entries[n]).Some?
    ensures
      var table, e := TableName(sets[i].name), sets[i].entries[n];
      Lookup(RulesInfo(convert, maxPriority, tables, current, sets), RuleKey(table, e.sequenceId))
        == Converted(convert, maxPriority, tables[table], e)
  {
    var table, entries := TableName(sets[i].name), sets[i].entries;
    var key := RuleKey(table, entries[n].sequenceId);
    RulesOfTable(convert, maxPriority, tables, current, sets, i, key);
    KeysApart(table, entries[n].sequenceId, 0);
    var rules := RulesInfo(convert, maxPriority, tables, current, sets);
    var m :| Yields(convert, maxPriority, table, tables[table], entries, m, key, rules[key]);
    YieldsOnce(convert, maxPriority, table, tables[table], entries, m, n, rules[key]);
  }

  lemma RuleHasEntry<M>(convert: Converter<M>, maxPriority: int, tables: Tables, current: Option<string>,
                        sets: seq<AclSet<M>>, i: nat, key: Key)
    requires DistinctTables(sets) && i < |sets| && DistinctIds(sets[i].entries)
    requires Compiled(tables, current, sets[i].name)
    requires key in RulesInfo(convert, maxPriority, tables, current, sets) && key.0 == TableName(sets[i].name)
    requires key != DenyKey(key.0)
    ensures exists e | e in sets[i].entries ::
      convert(tables[key.0], e.body).Some? && key.1 == "RULE_" + Text(e.sequenceId)
  {
    var entries := sets[i].entries;
    var rules := RulesInfo(convert, maxPriority, tables, current, sets);
    RulesOfTable(convert, maxPriority, tables, current, sets, i, key);
    var n :| Yields(convert, maxPriority, key.0, tables[key.0], entries, n, key, rules[key]);
    assert entries[n] in entries;
  }

  lemma SetIsCompiled<M>(convert: Converter<M>, maxPriority: int, tables: Tables, current: Option<string>,
                         sets: seq<AclSet<M>>, i: nat)
    requires DistinctTables(sets) && i < |sets| && DistinctIds(sets[i].entries)
    requires Compiled(tables, current, sets[i].name)
    ensures
      var table := TableName(sets[i].name);
      IsCompiledSet(convert, maxPriority, tables[table], table, sets[i].entries,
                    RulesInfo(convert, maxPriority, tables, current, sets))
  {
    var table, entries := TableName(sets[i].name), sets[i].entries;
    var t := tables[table];
    var rules := RulesInfo(convert, maxPriority, tables, current, sets);
    KindsApart(t);
    DenyIsDeny(t);
    DenyIsCompiled(convert, maxPriority, tables, current, sets, i);
    forall e | e in entries && convert(t, e.body).Some?
      ensures (table, "RULE_" + Text(e.sequenceId)) in rules
      ensures IsRule(t, maxPriority - e.sequenceId, convert(t, e.body).value,
                     rules[(table, "RULE_" + Text(e.sequenceId))])
    {
      var n :| 0 <= n < |entries| && entries[n] == e;
      ConvertedIsRule(convert, maxPriority, t, e);
      EntryIsCompiled(convert, maxPriority, tables, current, sets, i, n);
    }
    forall key | key in rules && key.0 == table && key.1 != "DEFAULT_RULE"
      ensures exists e | e in entries :: convert(t, e.body).Some? && key.1 == "RULE_" + Text(e.sequenceId)
    {
      RuleHasEntry(convert, maxPriority, tables, current, sets, i, key);
    }
  }

  lemma SetsAreCompiled<M>(convert: Converter<M>, maxPriority: int, tables: Tables, current: Option<string>,
                           sets: seq<AclSet<M>>)
    requires DistinctTables(sets)
    ensures forall s | s in sets && Compiled(tables, current, s.name) && DistinctIds(s.entries) ::
      IsCompiledSet(convert, maxPriority, tables[TableName(s.name)], TableName(s.name), s.entries,
                    RulesInfo(convert, maxPriority, tables, current, sets))
  {
    forall s | s in sets && Compiled(tables, current, s.name) && DistinctIds(s.entries)
      ensures IsCompiledSet(convert, maxPriority, tables[TableName(s.name)], TableName(s.name), s.entries,
                            RulesInfo(convert, maxPriority, tables, current, sets))
    {
      var i :| 0 <= i < |sets| && sets[i] == s;
      SetIsCompiled(convert, maxPriority, tables, current, sets, i);
    }
  }

  /** convert_rules */
  method ConvertRules<M>(convert: Converter<M>, maxPriority: int, tables: Tables, current: Option<string>,
                         sets: seq<AclSet<M>>)
    returns (rulesInfo: Rules)
    ensures rulesInfo == RulesInfo(convert, maxPriority, tables, current, sets)
    ensures DistinctTables(sets) ==>
      forall s | s in sets && DistinctIds(s.entries)
        && TableName(s.name) in tables && (current.None? || current.value == TableName(s.name)) ::
        IsCompiledSet(convert, maxPriority, tables[TableName(s.name)], TableName(s.name), s.entries, rulesInfo)
  {
    rulesInfo := map[];
    for i := 0 to |sets|
      invariant rulesInfo == RulesInfo(convert, maxPriority, tables, current, sets[..i])
    {
      assert sets[..i + 1][..i] == sets[..i];
      var table := TableName(sets[i].name);
      if table in tables && (current.None? || current.value == table) {
        var t, entries := tables[table], sets[i].entries;
        ghost var before := rulesInfo;
        for j := 0 to |entries|
          invariant rulesInfo == EntryRules(convert, maxPriority, table, t, entries[..j], before)
        {
          assert entries[..j + 1][..j] == entries[..j];
          var props := Converted(convert, maxPriority, t, entries[j]);
          if props.Some? {
            rulesInfo := DeepUpdate(rulesInfo, RuleKey(table, entries[j].sequenceId), props.value);
          }
        }
        assert entries[..|entries|] == entries;
        if !IsMirror(t) && !IsEgress(t) {
          rulesInfo := DeepUpdate(rulesInfo, DenyKey(table), DenyProps(t));
        }
      }
    }
    assert sets[..|sets|] == sets;
    if DistinctTables(sets) { SetsAreCompiled(convert, maxPriority, tables, current, sets); }
  }

  lemma PriorityOf<M>(convert: Converter<M>, maxPriority: int, t: TableInfo, e: Entry<M>)
    requires convert(t, e.body).Some? && "PRIORITY" !in convert(t, e.body).value
    ensures Priority(Converted(convert, maxPriority, t, e).value) == Some(maxPriority - e.sequenceId)
    ensures Priority(DenyProps(t)) == Some(MIN_PRIORITY)
  {
    NumberOfText(maxPriority - e.sequenceId);
    NumberOfText(MIN_PRIORITY);
    var p := Converted(convert, maxPriority, t, e).value;
    assert p["PRIORITY"] == TextProp(Text(maxPriority - e.sequenceId));
    assert DenyProps(t)["PRIORITY"] == TextProp(Text(MIN_PRIORITY));
  }

  /** Among the rules of a table, `best` matches the packet and no matching rule has a higher priority. */
  predicate Chosen(rules: Rules, matches: Props -> bool, best: Key) {
    && best in rules && matches(rules[best]) && Priority(rules[best]).Some?
    && forall k | k in rules && k.0 == best.0 && matches(rules[k]) ::
         Priority(rules[k]).Some? && Priority(rules[k]).value <= Priority(rules[best]).value
  }

  /** The entry applies to the packet once it has been compiled. */
  predicate Applies<M>(convert: Converter<M>, maxPriority: int, t: TableInfo, matches: Props -> bool, e: Entry<M>) {
    Converted(convert, maxPriority, t, e).Some? && matches(Converted(convert, maxPriority, t, e).value)
  }

  /** `best` comes from the applying entry with the smallest sequence id, or is the deny if none applies. */
  ghost predicate IsFirstMatch<M(!new)>(convert: Converter<M>, maxPriority: int, t: TableInfo, entries: seq<Entry<M>>,
                                        matches: Props -> bool, best: Key) {
    if exists e :: e in entries && Applies(convert, maxPriority, t, matches, e) then
      exists e :: e in entries && Applies(convert, maxPriority, t, matches, e) && best == RuleKey(best.0, e.sequenceId)
        && forall o | o in entries && Applies(convert, maxPriority, t, matches, o) :: e.sequenceId <= o.sequenceId
    else best == DenyKey(best.0)
  }

  /** If the table gets a default deny, every entry that converts has an id below the bound. */
  ghost predicate RoomAboveDeny<M(!new)>(convert: Converter<M>, maxPriority: int, t: TableInfo,
                                         entries: seq<Entry<M>>) {
    HasDeny(t) ==> forall e | e in entries && Converted(convert, maxPriority, t, e).Some? ::
      e.sequenceId < maxPriority - MIN_PRIORITY
  }

  /** First match holds for a set: whatever is matched, each rule that the switch may choose in its table is
      the first.
   */
  ghost predicate FirstMatchHolds<M(!new)>(convert: Converter<M>, maxPriority: int, tables: Tables,
                                           current: Option<string>,
                                           sets: seq<AclSet<M>>, i: nat)
    requires i < |sets| && Compiled(tables, current, sets[i].name)
  {
    var table := TableName(sets[i].name);
    forall matches: Props -> bool, best: Key | best.0 == table
      && Chosen(RulesInfo(convert, maxPriority, tables, current, sets), matches, best) ::
      IsFirstMatch(convert, maxPriority, tables[table], sets[i].entries, matches, best)
  }

  /** First match holds exactly if the table has no default deny or every converting entry has room above it. */
  lemma FirstMatchIff<M(!new)>(convert: Converter<M>, maxPriority: int, tables: Tables, current: Option<string>,
                               sets: seq<AclSet<M>>, i: nat)
    requires NeverPriority(convert) && DistinctTables(sets) && i < |sets| && DistinctIds(sets[i].entries)
    requires Compiled(tables, current, sets[i].name)
    ensures FirstMatchHolds(convert, maxPriority, tables, current, sets, i)
       <==> RoomAboveDeny(convert, maxPriority, tables[TableName(sets[i].name)], sets[i].entries)
  {
    var table, entries := TableName(sets[i].name), sets[i].entries;
    if RoomAboveDeny(convert, maxPriority, tables[table], entries) {
      forall matches: Props -> bool, best: Key
        | best.0 == table && Chosen(RulesInfo(convert, maxPriority, tables, current, sets), matches, best)
        ensures IsFirstMatch(convert, maxPriority, tables[table], entries, matches, best)
      {
        FirstMatch(convert, maxPriority, tables, current, sets, i, matches, best);
      }
    } else {
      var e :| e in entries && Converted(convert, maxPriority, tables[table], e).Some?
        && e.sequenceId >= maxPriority - MIN_PRIORITY;
      var matches := DenyShadows(convert, maxPriority, tables, current, sets, i, e);
    }
  }

  /** The rule of an entry that converts is in its table. */
  lemma RuleOfEntry<M(!new)>(convert: Converter<M>, maxPriority: int, tables: Tables, current: Option<string>,
                             sets: seq<AclSet<M>>, i: nat, e: Entry<M>)
    requires NeverPriority(convert) && DistinctTables(sets) && i < |sets| && DistinctIds(sets[i].entries)
    requires Compiled(tables, current, sets[i].name) && e in sets[i].entries
    requires Converted(convert, maxPriority, tables[TableName(sets[i].name)], e).Some?
    ensures
      var rules, t := RulesInfo(convert, maxPriority, tables, current, sets), tables[TableName(sets[i].name)];
      var key := RuleKey(TableName(sets[i].name), e.sequenceId);
      && key in rules && rules[key] == Converted(convert, maxPriority, t, e).value
      && Priority(rules[key]) == Some(maxPriority - e.sequenceId)
  {
    var table, entries, rules :=
      TableName(sets[i].name), sets[i].entries, RulesInfo(convert, maxPriority, tables, current, sets);
    var n :| 0 <= n < |entries| && entries[n] == e;
    var key := RuleKey(table, e.sequenceId);
    RulesOfTable(convert, maxPriority, tables, current, sets, i, key);
    KeysApart(table, e.sequenceId, e.sequenceId);
    var j :| Yields(convert, maxPriority, table, tables[table], entries, j, key, rules[key]);
    KeysApart(table, entries[j].sequenceId, e.sequenceId);
    assert j == n;
    PriorityOf(convert, maxPriority, tables[table], e);
  }

  /** With room above the deny, the rule that the switch chooses is the first that matches. */
  lemma FirstMatch<M(!new)>(convert: Converter<M>, maxPriority: int, tables: Tables, current: Option<string>,
                            sets: seq<AclSet<M>>, i: nat, matches: Props -> bool, best: Key)
    requires NeverPriority(convert) && DistinctTables(sets) && i < |sets| && DistinctIds(sets[i].entries)
    requires Compiled(tables, current, sets[i].name) && best.0 == TableName(sets[i].name)
    requires RoomAboveDeny(convert, maxPriority, tables[best.0], sets[i].entries)
    requires Chosen(RulesInfo(convert, maxPriority, tables, current, sets), matches, best)
    ensures IsFirstMatch(convert, maxPriority, tables[best.0], sets[i].entries, matches, best)
  {
    var t, entries, rules := tables[best.0], sets[i].entries, RulesInfo(convert, maxPriority, tables, current, sets);
    RulesOfTable(convert, maxPriority, tables, current, sets, i, best);
    forall o | o in entries && Applies(convert, maxPriority, t, matches, o)
      ensures Priority(rules[best]).value >= maxPriority - o.sequenceId
    {
      RuleOfEntry(convert, maxPriority, tables, current, sets, i, o);
    }
    if best == DenyKey(best.0) && HasDeny(t) && rules[best] == DenyProps(t) {
      NumberOfText(MIN_PRIORITY);
      assert DenyProps(t)["PRIORITY"] == TextProp(Text(MIN_PRIORITY));
    } else {
      var j :| Yields(convert, maxPriority, best.0, t, entries, j, best, rules[best]);
      var e := entries[j];
      PriorityOf(convert, maxPriority, t, e);
      assert e in entries && Applies(convert, maxPriority, t, matches, e);
    }
  }

  /** One converting entry at or above the bound: a packet that matches its rule and the deny alone may
      be denied, although the entry applies.
   */
  lemma DenyShadows<M(!new)>(convert: Converter<M>, maxPriority: int, tables: Tables, current: Option<string>,
                             sets: seq<AclSet<M>>, i: nat, e: Entry<M>) returns (matches: Props -> bool)
    requires NeverPriority(convert) && DistinctTables(sets) && i < |sets| && DistinctIds(sets[i].entries)
    requires Compiled(tables, current, sets[i].name) && e in sets[i].entries
    requires HasDeny(tables[TableName(sets[i].name)]) && e.sequenceId >= maxPriority - MIN_PRIORITY
    requires Converted(convert, maxPriority, tables[TableName(sets[i].name)], e).Some?
    ensures
      var table := TableName(sets[i].name);
      && Chosen(RulesInfo(convert, maxPriority, tables, current, sets), matches, DenyKey(table))
      && !IsFirstMatch(convert, maxPriority, tables[table], sets[i].entries, matches, DenyKey(table))
  {
    var table, entries, rules :=
      TableName(sets[i].name), sets[i].entries, RulesInfo(convert, maxPriority, tables, current, sets);
    var t, deny := tables[table], DenyKey(table);
    var shadowed := Converted(convert, maxPriority, t, e).value;
    matches := p => p == shadowed || p == DenyProps(t);
    forall n: nat ensures RuleKey(table, n) != deny {
      KeysApart(table, n, 0);
    }
    RulesOfTable(convert, maxPriority, tables, current, sets, i, deny);
    PriorityOf(convert, maxPriority, t, e);
    assert rules[deny] == DenyProps(t);
    assert Applies(convert, maxPriority, t, matches, e);
  }

  /** A compiled rule is above the default deny exactly when its sequence id leaves room for it. */
  lemma RuleAboveDeny<M(!new)>(convert: Converter<M>, maxPriority: int, t: TableInfo, e: Entry<M>)
    requires NeverPriority(convert) && Converted(convert, maxPriority, t, e).Some?
    ensures Priority(Converted(convert, maxPriority, t, e).value).Some? && Priority(DenyProps(t)).Some?
    ensures Priority(Converted(convert, maxPriority, t, e).value).value > Priority(DenyProps(t)).value
       <==> e.sequenceId < maxPriority - MIN_PRIORITY
  {
    PriorityOf(convert, maxPriority, t, e);
  }
}
