/** The connector that turns single writes into JSON patches for the generic config updater. */
module ValidatedConnector {
  import opened JsonTree
  import opened ConfigStore
  import opened JsonPatch
  import opened ConfigUpdater

  /** A dict of strings, in insertion order. */
  type Fields = seq<(string, string)>

  function AsMap(fields: Fields): map<string, Json> {
    if fields == [] then map[] else AsMap(fields[..|fields| - 1])[fields[|fields| - 1].0 := Str(fields[|fields| - 1].1)]
  }

  /** make_path_value_jsonpatch_compatible: the placeholder for "no fields" becomes an empty object. */
  function Cleaned(fields: Fields): Json {
    if fields == [("NULL", "NULL")] then Obj(map[]) else Obj(AsMap(fields))
  }

  /** A dict whose only value is the empty string asks for removal. */
  predicate SingleEmpty(fields: Fields) {
    |fields| == 1 && fields[0].1 == ""
  }

  function TablePath(table: string): string {
    "/" + table
  }

  /** The operations that create the table and the entry where they are missing or empty. */
  function Header(db: Json, table: string, key: string): Patch {
    (if Table(db, table) == map[] then [Add(TablePath(table), Obj(map[]))] else [])
    + (if EntryOf(db, table, key).None? || !Truthy(EntryOf(db, table, key).value)
       then [Add(Pointer([table, key]), Obj(map[]))] else [])
  }

  function FieldOp(add: bool, table: string, key: string, field: (string, string)): Op {
    var path := Pointer([table, key, field.0]);
    if add then Add(path, Str(field.1)) else Remove(path)
  }

  /** One operation for each field, so that the other fields of the entry stay. */
  function FieldOps(add: bool, table: string, key: string, fields: Fields): Patch {
    if fields == [] then []
    else FieldOps(add, table, key, fields[..|fields| - 1]) + [FieldOp(add, table, key, fields[|fields| - 1])]
  }

  /** create_gcu_patch for set_entry. With an empty key the path is that of the table; then an add has no
      value and raises, which None stands for.
   */
  function SetPatch(db: Json, table: string, key: string, fields: Option<Fields>): Option<Patch> {
    if fields.None? || SingleEmpty(fields.value)
    then Some([Remove(if key == "" then TablePath(table) else Pointer([table, key]))])
    else if key == "" then None
    else Some(Header(db, table, key) + [Add(Pointer([table, key]), Cleaned(fields.value))])
  }

  /** create_gcu_patch for mod_entry */
  function ModPatch(db: Json, table: string, key: string, fields: Fields): Patch {
    if SingleEmpty(fields) then FieldOps(false, table, key, fields)
    else Header(db, table, key) + FieldOps(true, table, key, fields)
  }

  function DeletePatch(table: string): Patch {
    [Remove(TablePath(table))]
  }

  lemma TablePathParts(table: string)
    ensures Plain(table) ==> Parts(TablePath(table)) == Some([table])
  {
    if Plain(table) {
      EscapePlain(table);
      PointerRoundTrip([table]);
      var none: seq<string> := [];
      assert Pointer(none) == "" && [table][1..] == none;
      assert Pointer([table]) == "/" + Escape(table) + "";
      assert TablePath(table) == Pointer([table]);
    }
  }

  lemma AddKey(doc: Json, table: string, key: string, value: Json)
    requires doc.Obj? && table in doc.m && doc.m[table].Obj?
    ensures ApplyOp(doc, Add(Pointer([table, key]), value))
         == Some(Obj(doc.m[table := Obj(doc.m[table].m[key := value])]))
  {
    PointerRoundTrip([table, key]);
    assert [table, key][1..] == [key];
    assert AddAt(doc.m[table], [key], value) == Some(Obj(doc.m[table].m[key := value]));
  }

  lemma AddField(doc: Json, table: string, key: string, f: string, value: Json)
    requires doc.Obj? && table in doc.m && doc.m[table].Obj? && key in doc.m[table].m && doc.m[table].m[key].Obj?
    ensures ApplyOp(doc, Add(Pointer([table, key, f]), value))
         == Some(SetEntry(doc, table, key, Some(Obj(doc.m[table].m[key].m[f := value]))))
  {
    PointerRoundTrip([table, key, f]);
    assert [table, key, f][1..] == [key, f] && [key, f][1..] == [f];
    var entry := doc.m[table].m[key];
    assert AddAt(entry, [f], value) == Some(Obj(entry.m[f := value]));
    assert AddAt(doc.m[table], [key, f], value) == Some(Obj(doc.m[table].m[key := Obj(entry.m[f := value])]));
  }

  lemma RemoveField(doc: Json, table: string, key: string, f: string)
    requires doc.Obj? && table in doc.m && doc.m[table].Obj? && key in doc.m[table].m && doc.m[table].m[key].Obj?
    ensures ApplyOp(doc, Remove(Pointer([table, key, f])))
         == if f !in doc.m[table].m[key].m then None
            else Some(SetEntry(doc, table, key, Some(Obj(doc.m[table].m[key].m - {f}))))
  {
    PointerRoundTrip([table, key, f]);
    assert [table, key, f][1..] == [key, f] && [key, f][1..] == [f];
    var entry := doc.m[table].m[key];
    assert RemoveAt(entry, [f]) == if f in entry.m then Some(Obj(entry.m - {f})) else None;
    assert f in entry.m ==>
      RemoveAt(doc.m[table], [key, f]) == Some(Obj(doc.m[table].m[key := Obj(entry.m - {f})]));
    assert f !in entry.m ==> RemoveAt(doc.m[table], [key, f]) == None;
  }

  lemma RemoveFieldNowhere(db: Json, table: string, key: string, f: string)
    requires IsConfig(db) && EntryOf(db, table, key).None?
    ensures ApplyOp(db, Remove(Pointer([table, key, f]))) == None
  {
    PointerRoundTrip([table, key, f]);
    assert [table, key, f][1..] == [key, f] && [key, f][1..] == [f];
    TableOfConfig(db, table);
    if table in db.m {
      assert RemoveAt(db.m[table], [key, f]) == None;
    }
  }

  lemma ApplyOne(doc: Json, op: Op)
    ensures Apply(doc, [op]) == ApplyOp(doc, op)
  {
    assert [op][1..] == [];
  }

  /** The document once the header has been applied: the entry is there, empty if it is new. */
  function Opened(db: Json, table: string, key: string): Json
    requires db.Obj?
  {
    if EntryOf(db, table, key).Some? then db else SetEntry(db, table, key, Some(Obj(map[])))
  }

  lemma HeaderOpens(db: Json, table: string, key: string)
    requires IsConfig(db) && Plain(table)
    ensures Apply(db, Header(db, table, key)) == Some(Opened(db, table, key))
  {
    TableOfConfig(db, table);
    TablePathParts(table);
    var none: Patch := [];
    var withTable := if Table(db, table) == map[] then Obj(db.m[table := Obj(map[])]) else db;
    var first := if Table(db, table) == map[] then [Add(TablePath(table), Obj(map[]))] else none;
    assert Apply(db, first) == Some(withTable) by {
      if first != none { ApplyOne(db, first[0]); }
    }
    var second := if EntryOf(db, table, key).None? || !Truthy(EntryOf(db, table, key).value)
                  then [Add(Pointer([table, key]), Obj(map[]))] else none;
    ApplyConcat(db, first, second);
    if second != none {
      ApplyOne(withTable, second[0]);
      AddKey(withTable, table, key, Obj(map[]));
      var after := Obj(withTable.m[table := Obj(withTable.m[table].m[key := Obj(map[])])]);
      if EntryOf(db, table, key).Some? {
        assert EntryOf(db, table, key).value == Obj(map[]);
        assert db.m[table].m[key := Obj(map[])] == db.m[table].m;
        assert after.m == db.m;
      } else {
        assert after.m == db.m[table := Obj(Table(db, table)[key := Obj(map[])])];
      }
    }
  }

  /** The patch for set_entry never names a missing parent, and its result is that of the plain write. */
  lemma SetPatchWrites(db: Json, table: string, key: string, fields: Fields)
    requires IsConfig(db) && Plain(table) && key != "" && !SingleEmpty(fields)
    ensures SetPatch(db, table, key, Some(fields)).Some?
    ensures
      Apply(db, SetPatch(db, table, key, Some(fields)).value) == Some(SetEntry(db, table, key, Some(Cleaned(fields))))
    ensures IsConfig(SetEntry(db, table, key, Some(Cleaned(fields))))
  {
    HeaderOpens(db, table, key);
    TableOfConfig(db, table);
    var ready := Opened(db, table, key);
    var last := Add(Pointer([table, key]), Cleaned(fields));
    ApplyConcat(db, Header(db, table, key), [last]);
    ApplyOne(ready, last);
    AddKey(ready, table, key, Cleaned(fields));
    OpenedThenWritten(db, table, key, Cleaned(fields));
    FieldsAreEntry(fields);
    SetEntryIsConfig(db, table, key, Some(Cleaned(fields)));
  }

  /** What is written at the key hides how the key came to be. */
  lemma OpenedThenWritten(db: Json, table: string, key: string, entry: Json)
    requires IsConfig(db)
    ensures var ready := Opened(db, table, key);
      table in ready.m && ready.m[table].Obj?
        && Obj(ready.m[table := Obj(ready.m[table].m[key := entry])]) == SetEntry(db, table, key, Some(entry))
  {
    TableOfConfig(db, table);
    var ready := Opened(db, table, key);
    assert ready.m[table].m[key := entry] == Table(db, table)[key := entry];
    assert ready.m[table := Obj(Table(db, table)[key := entry])] == db.m[table := Obj(Table(db, table)[key := entry])];
  }

  lemma {:induction false} FieldsAreEntry(fields: Fields)
    ensures IsEntry(Obj(AsMap(fields)))
    ensures forall f | f in AsMap(fields) :: AsMap(fields)[f].Str?
    ensures IsEntry(Cleaned(fields))
    decreases |fields|
  {
    if fields != [] {
      FieldsAreEntry(fields[..|fields| - 1]);
    }
  }

  /** The patch for mod_entry never names a missing parent, and its result is that of the plain merge. */
  lemma {:induction false} ModPatchMerges(db: Json, table: string, key: string, fields: Fields)
    requires IsConfig(db) && Plain(table) && !SingleEmpty(fields)
    ensures Apply(db, ModPatch(db, table, key, fields)) == Some(ModEntry(db, table, key, AsMap(fields)))
    ensures IsConfig(ModEntry(db, table, key, AsMap(fields)))
  {
    HeaderOpens(db, table, key);
    ApplyConcat(db, Header(db, table, key), FieldOps(true, table, key, fields));
    FieldOpsMerge(db, table, key, fields);
    FieldsAreEntry(fields);
    TableOfConfig(db, table);
    var entry := EntryOf(db, table, key);
    var merged := (if entry.Some? then Kids(entry.value) else map[]) + AsMap(fields);
    assert IsEntry(Obj(merged));
    SetEntryIsConfig(db, table, key, Some(Obj(merged)));
  }

  lemma {:induction false} FieldOpsMerge(db: Json, table: string, key: string, fields: Fields)
    requires IsConfig(db)
    ensures Apply(Opened(db, table, key), FieldOps(true, table, key, fields))
      == Some(ModEntry(db, table, key, AsMap(fields)))
    decreases |fields|
  {
    TableOfConfig(db, table);
    var entry := EntryOf(db, table, key);
    var before := if entry.Some? then Kids(entry.value) else map[];
    if fields == [] {
      assert before + AsMap(fields) == before;
      if entry.Some? {
        assert Table(db, table)[key := Obj(before)] == Table(db, table);
        assert db.m[table := Obj(Table(db, table))] == db.m;
      }
    } else {
      var most, last := fields[..|fields| - 1], fields[|fields| - 1];
      FieldOpsMerge(db, table, key, most);
      var so := ModEntry(db, table, key, AsMap(most));
      var op := FieldOp(true, table, key, last);
      ApplyConcat(Opened(db, table, key), FieldOps(true, table, key, most), [op]);
      ApplyOne(so, op);
      AddField(so, table, key, last.0, Str(last.1));
      AsMapStep(before, fields);
      SetEntryTwice(db, table, key, Obj(before + AsMap(most)), Obj(before + AsMap(fields)));
    }
  }

  lemma AsMapStep(before: map<string, Json>, fields: Fields)
    requires fields != []
    ensures var most, last := fields[..|fields| - 1], fields[|fields| - 1];
      (before + AsMap(most))[last.0 := Str(last.1)] == before + AsMap(fields)
  {
  }

  lemma SetEntryTwice(db: Json, table: string, key: string, a: Json, b: Json)
    requires db.Obj?
    ensures SetEntry(SetEntry(db, table, key, Some(a)), table, key, Some(b)) == SetEntry(db, table, key, Some(b))
  {
    assert Table(db, table)[key := a][key := b] == Table(db, table)[key := b];
    assert SetEntry(SetEntry(db, table, key, Some(a)), table, key, Some(b)).m == SetEntry(db, table, key, Some(b)).m;
  }

  predicate LastKey(db: Json, table: string, key: string) {
    Table(db, table).Keys == {key}
  }

  function Emptied(db: Json, table: string): Json
    requires db.Obj?
  {
    Obj(db.m[table := Obj(map[])])
  }

  /** Removing a key: an exception if it is not there, an empty table if it was the last one, else the plain delete. */
  lemma RemovePatch(db: Json, table: string, key: string)
    requires IsConfig(db)
    ensures
      var after := Apply(db, [Remove(Pointer([table, key]))]);
      if EntryOf(db, table, key).None? then after.None?
      else after.Some? && (HasEmptyTable(after.value) <==> LastKey(db, table, key))
           && after.value == if LastKey(db, table, key) then Emptied(db, table) else SetEntry(db, table, key, None)
  {
    PointerRoundTrip([table, key]);
    assert [table, key][1..] == [key];
    ApplyOne(db, Remove(Pointer([table, key])));
    TableOfConfig(db, table);
    if table in db.m {
      assert RemoveAt(db.m[table], [key])
          == if key in db.m[table].m then Some(Obj(db.m[table].m - {key})) else None;
    }
    if EntryOf(db, table, key).Some? {
      var rest := Table(db, table) - {key};
      var after := Obj(db.m[table := Obj(rest)]);
      assert rest.Keys == Table(db, table).Keys - {key} && key in Table(db, table);
      assert rest == map[] <==> rest.Keys == {};
      assert LastKey(db, table, key) <==> rest.Keys == {};
      forall t | t in after.m && t != table ensures Truthy(after.m[t]) { TableOfConfig(db, t); }
      assert table in after.m && (Truthy(after.m[table]) <==> rest != map[]);
    }
  }

  /** Deleting the table that holds only this key is the plain delete of the key. */
  lemma DeleteLast(db: Json, table: string, key: string)
    requires IsConfig(db) && Plain(table) && LastKey(db, table, key)
    ensures Apply(db, DeletePatch(table)) == Some(SetEntry(db, table, key, None))
  {
    TablePathParts(table);
    ApplyOne(db, Remove(TablePath(table)));
    TableOfConfig(db, table);
    assert key in Table(db, table);
    assert Table(db, table) - {key} == map[];
  }

  // ---------- Calls and runs of calls ----------

  datatype Call =
    | SetCall(table: string, key: string, fields: Option<Fields>)
    | ModCall(table: string, key: string, changes: Option<Fields>)
    | DeleteCall(table: string)

  /** The arguments inside the model: a table name that needs no escaping, and the placeholder for "no fields"
      nowhere but alone in a set_entry.
   */
  predicate Meant(c: Call) {
    match c
    case SetCall(table, _, fields) => Plain(table) && (fields.Some? ==>
      fields.value == [("NULL", "NULL")] || forall f | f in fields.value :: f.0 != "NULL")
    case ModCall(table, _, changes) =>
      Plain(table) && (changes.Some? ==> forall f | f in changes.value :: f.0 != "NULL")
    case DeleteCall(table) => Plain(table)
  }

  /** The same call on the plain connector. */
  function PlainAfter(db: Json, c: Call): Json
    requires db.Obj?
  {
    match c
    case SetCall(t, k, fields) => SetEntry(db, t, k, if fields.Some? then Some(Cleaned(fields.value)) else None)
    case ModCall(t, k, changes) =>
      if changes.Some? then ModEntry(db, t, k, AsMap(changes.value)) else SetEntry(db, t, k, None)
    case DeleteCall(t) => DeleteTable(db, t)
  }

  /** How a call ends: whether it raised, and Config DB */
  datatype Reply = Reply(ok: bool, db: Json)

  /** validated_delete_table: a ValueError is only logged. */
  function DeleteAfter(tools: Tools, db: Json, table: string): Reply {
    var verdict := Verdict(tools, db, DeletePatch(table));
    Reply(verdict.Done? || verdict.NotPermitted? || verdict.EmptyTables? || verdict.InvalidTarget?,
          Patched(tools, db, DeletePatch(table)))
  }

  /** apply_patch: an empty table in the target is answered by deleting the table. */
  function PatchAfter(tools: Tools, db: Json, patch: Patch, table: string): Reply {
    var verdict := Verdict(tools, db, patch);
    if verdict.EmptyTables? then DeleteAfter(tools, db, table) else Reply(verdict.Done?, Patched(tools, db, patch))
  }

  /** How a validated call ends. mod_entry without a value always raises. */
  function ValidatedAfter(tools: Tools, db: Json, c: Call): Reply {
    match c
    case SetCall(t, k, fields) =>
      var patch := SetPatch(db, t, k, fields);
      if patch.None? then Reply(false, db) else PatchAfter(tools, db, patch.value, t)
    case ModCall(t, k, changes) =>
      if changes.None? then Reply(false, db) else PatchAfter(tools, db, ModPatch(db, t, k, changes.value), t)
    case DeleteCall(t) => DeleteAfter(tools, db, t)
  }

  /** A patch whose result is a config is not reported as partly applied, and leaves that result. */
  lemma ExactPatch(tools: Tools, db: Json, patch: Patch)
    requires Apply(db, patch).Some? && IsConfig(Apply(db, patch).value)
    ensures !Verdict(tools, db, patch).StillDifferent? && !Verdict(tools, db, patch).EmptyTables?
    ensures Patched(tools, db, patch) == if Verdict(tools, db, patch).Done? then Apply(db, patch).value else db
  {
    KeptIsConfig(Apply(db, patch).value);
    NoEmptyTables(Apply(db, patch).value);
  }

  // ---------- How each call ends ----------

  /** A write that leads to `target` and is either carried out or raises */
  function Accepted(tools: Tools, db: Json, patch: Patch, target: Json): Reply {
    if tools.permitted(db, target) && tools.sort(db, patch).Changes? then Reply(true, target) else Reply(false, db)
  }

  /** The table is there, and its deletion is refused with a ValueError. */
  predicate DeletionIgnored(tools: Tools, db: Json, table: string)
    requires db.Obj?
  {
    table in db.m && (!tools.permitted(db, DeleteTable(db, table)) || tools.sort(db, DeletePatch(table)).Invalid?)
  }

  function Deletion(tools: Tools, db: Json, table: string): Reply
    requires db.Obj?
  {
    if table !in db.m then Reply(false, db)
    else if DeletionIgnored(tools, db, table) then Reply(true, db)
    else Accepted(tools, db, DeletePatch(table), DeleteTable(db, table))
  }

  /** Taking the last key of a table is permitted twice: for the table without keys, and for its deletion. */
  function Removal(tools: Tools, db: Json, table: string, key: string): Reply
    requires db.Obj?
  {
    if EntryOf(db, table, key).None? then Reply(false, db)
    else if !LastKey(db, table, key) then
      Accepted(tools, db, [Remove(Pointer([table, key]))], SetEntry(db, table, key, None))
    else if !tools.permitted(db, Emptied(db, table)) then Reply(false, db)
    else Deletion(tools, db, table)
  }

  /** One field goes, which the patch says at once, whatever else the entry holds. */
  function FieldRemoval(tools: Tools, db: Json, table: string, key: string, field: string): Reply
    requires db.Obj?
  {
    var entry := EntryOf(db, table, key);
    if entry.None? || field !in Kids(entry.value) then Reply(false, db)
    else Accepted(tools, db, [Remove(Pointer([table, key, field]))],
                  SetEntry(db, table, key, Some(Obj(Kids(entry.value) - {field}))))
  }

  predicate AsksRemoval(fields: Option<Fields>) {
    fields.None? || SingleEmpty(fields.value)
  }

  /** How a validated call ends, said by the plain operations and the answers of the checks alone. */
  function Outcome(tools: Tools, db: Json, c: Call): Reply
    requires db.Obj?
  {
    match c
    case SetCall(t, k, fields) =>
      if k == "" then
        if !AsksRemoval(fields) || t !in db.m then Reply(false, db)
        else Accepted(tools, db, DeletePatch(t), DeleteTable(db, t))
      else if AsksRemoval(fields) then Removal(tools, db, t, k)
      else Accepted(tools, db, SetPatch(db, t, k, fields).value, PlainAfter(db, c))
    case ModCall(t, k, changes) =>
      if changes.None? then Reply(false, db)
      else if SingleEmpty(changes.value) then FieldRemoval(tools, db, t, k, changes.value[0].0)
      else Accepted(tools, db, ModPatch(db, t, k, changes.value), PlainAfter(db, c))
    case DeleteCall(t) => Deletion(tools, db, t)
  }

  /** The layers of patches, simulation and exceptions come down to Outcome, for every call. */
  lemma ValidatedOutcome(tools: Tools, db: Json, c: Call)
    requires IsConfig(db) && Meant(c)
    ensures ValidatedAfter(tools, db, c) == Outcome(tools, db, c)
  {
    match c
    case SetCall(t, k, fields) =>
      if k == "" {
        DeletionOutcome(tools, db, t);
      } else if AsksRemoval(fields) {
        RemovalOutcome(tools, db, t, k);
      } else {
        SetPatchWrites(db, t, k, fields.value);
        AcceptedOutcome(tools, db, SetPatch(db, t, k, fields).value, t);
      }
    case ModCall(t, k, changes) =>
      if changes.Some? && SingleEmpty(changes.value) {
        FieldRemovalOutcome(tools, db, t, k, changes.value);
      } else if changes.Some? {
        ModPatchMerges(db, t, k, changes.value);
        AcceptedOutcome(tools, db, ModPatch(db, t, k, changes.value), t);
      }
    case DeleteCall(t) => DeletionOutcome(tools, db, t);
  }

  lemma AcceptedOutcome(tools: Tools, db: Json, patch: Patch, table: string)
    requires IsConfig(db) && Apply(db, patch).Some? && IsConfig(Apply(db, patch).value)
    ensures PatchAfter(tools, db, patch, table) == Accepted(tools, db, patch, Apply(db, patch).value)
  {
    ExactPatch(tools, db, patch);
  }

  lemma DeletionOutcome(tools: Tools, db: Json, table: string)
    requires IsConfig(db) && Plain(table)
    ensures DeleteAfter(tools, db, table) == Deletion(tools, db, table)
    ensures PatchAfter(tools, db, DeletePatch(table), table) ==
      if table in db.m then Accepted(tools, db, DeletePatch(table), DeleteTable(db, table)) else Reply(false, db)
  {
    DeleteApplies(db, table);
    if table in db.m { ExactPatch(tools, db, DeletePatch(table)); }
  }

  lemma RemovalOutcome(tools: Tools, db: Json, table: string, key: string)
    requires IsConfig(db) && Plain(table)
    ensures PatchAfter(tools, db, [Remove(Pointer([table, key]))], table) == Removal(tools, db, table, key)
  {
    RemovePatch(db, table, key);
    if EntryOf(db, table, key).Some? {
      if LastKey(db, table, key) {
        DeletionOutcome(tools, db, table);
      } else {
        SetEntryIsConfig(db, table, key, None);
        AcceptedOutcome(tools, db, [Remove(Pointer([table, key]))], table);
      }
    }
  }

  lemma FieldRemovalOutcome(tools: Tools, db: Json, table: string, key: string, fields: Fields)
    requires IsConfig(db) && SingleEmpty(fields)
    ensures PatchAfter(tools, db, ModPatch(db, table, key, fields), table)
         == FieldRemoval(tools, db, table, key, fields[0].0)
  {
    var f := fields[0].0;
    var op := Remove(Pointer([table, key, f]));
    var none: Fields := [];
    assert fields[..0] == none && FieldOps(false, table, key, none) == [];
    assert ModPatch(db, table, key, fields) == [op];
    ApplyOne(db, op);
    TableOfConfig(db, table);
    if EntryOf(db, table, key).None? {
      RemoveFieldNowhere(db, table, key, f);
    } else {
      RemoveField(db, table, key, f);
      var entry := EntryOf(db, table, key).value;
      if f in entry.m {
        assert IsEntry(Obj(entry.m - {f}));
        SetEntryIsConfig(db, table, key, Some(Obj(entry.m - {f})));
        AcceptedOutcome(tools, db, [op], table);
      }
    }
  }

  lemma DeleteApplies(db: Json, table: string)
    requires IsConfig(db) && Plain(table)
    ensures Apply(db, DeletePatch(table)) == if table in db.m then Some(DeleteTable(db, table)) else None
    ensures table in db.m ==> DeleteTable(db, table) != db && IsConfig(DeleteTable(db, table))
  {
    TablePathParts(table);
    ApplyOne(db, Remove(TablePath(table)));
    if table in db.m {
      assert table !in DeleteTable(db, table).m;
    }
  }

  // ---------- When a validated call is the plain call ----------

  /** The call comes down to deleting the table, and that is refused with a ValueError. */
  predicate SilentlyRefused(tools: Tools, db: Json, c: Call)
    requires db.Obj?
  {
    && (c.DeleteCall? || (c.SetCall? && c.key != "" && AsksRemoval(c.fields) && LastKey(db, c.table, c.key)))
    && DeletionIgnored(tools, db, c.table)
  }

  /** What decides, before the call, whether it will do what the plain call does. A single empty field is no
      removal for the plain connector, and an empty key no table.
   */
  predicate SameAsPlain(tools: Tools, db: Json, c: Call)
    requires db.Obj?
  {
    match c
    case SetCall(t, k, fields) =>
      if fields.None? then if k == "" then Table(db, t).Keys == {""} else !SilentlyRefused(tools, db, c)
      else SingleEmpty(fields.value) ==>
        k != "" && SilentlyRefused(tools, db, c) && EntryOf(db, t, k) == Some(Cleaned(fields.value))
    case ModCall(_, _, changes) => changes.Some? && !SingleEmpty(changes.value)
    case DeleteCall(_) => !SilentlyRefused(tools, db, c)
  }

  /** A validated call that does not raise does what the plain call does if and only if SameAsPlain. */
  lemma ValidatedMeansPlainIff(tools: Tools, db: Json, c: Call)
    requires IsConfig(db) && Meant(c) && ValidatedAfter(tools, db, c).ok
    ensures ValidatedAfter(tools, db, c).db == PlainAfter(db, c) <==> SameAsPlain(tools, db, c)
    ensures SilentlyRefused(tools, db, c) ==> ValidatedAfter(tools, db, c).db == db
  {
    ValidatedOutcome(tools, db, c);
    match c
    case SetCall(t, k, fields) =>
      if fields.None? && k == "" {
        EmptyKeyDeletesTable(tools, db, t);
      } else if AsksRemoval(fields) {
        RemovalAgainstPlain(tools, db, c);
      }
    case ModCall(t, k, changes) =>
      if SingleEmpty(changes.value) { FieldStays(db, t, k, changes.value); }
    case DeleteCall(t) => DeleteApplies(db, t);
  }

  lemma RemovalAgainstPlain(tools: Tools, db: Json, c: Call)
    requires IsConfig(db) && Meant(c) && c.SetCall? && AsksRemoval(c.fields) && (c.fields.None? ==> c.key != "")
    requires Outcome(tools, db, c).ok
    ensures Outcome(tools, db, c).db == PlainAfter(db, c) <==> SameAsPlain(tools, db, c)
    ensures SilentlyRefused(tools, db, c) ==> Outcome(tools, db, c).db == db
  {
    var t, k := c.table, c.key;
    var plain := PlainAfter(db, c);
    SetEntryAt(db, t, k, None, t, k);
    if c.fields.Some? { SetEntryAt(db, t, k, Some(Cleaned(c.fields.value)), t, k); }
    TableOfConfig(db, t);
    if k != "" && LastKey(db, t, k) {
      DeleteLast(db, t, k);
      DeleteApplies(db, t);
    }
    if c.fields.Some? && EntryOf(db, t, k) == Some(Cleaned(c.fields.value)) {
      WrittenAlready(db, t, k);
    }
  }

  lemma WrittenAlready(db: Json, table: string, key: string)
    requires IsConfig(db) && EntryOf(db, table, key).Some?
    ensures SetEntry(db, table, key, EntryOf(db, table, key)) == db
  {
    TableOfConfig(db, table);
    assert Table(db, table)[key := Table(db, table)[key]] == Table(db, table);
    assert db.m[table := db.m[table]] == db.m;
  }

  /** Merging an empty field leaves that field, which its removal does not. */
  lemma FieldStays(db: Json, table: string, key: string, fields: Fields)
    requires IsConfig(db) && SingleEmpty(fields)
    ensures var entry := EntryOf(ModEntry(db, table, key, AsMap(fields)), table, key);
      entry.Some? && fields[0].0 in Kids(entry.value)
    ensures EntryOf(db, table, key).Some? ==>
      var entry := EntryOf(db, table, key).value;
      SetEntry(db, table, key, Some(Obj(Kids(entry) - {fields[0].0}))) != ModEntry(db, table, key, AsMap(fields))
  {
    var none: Fields := [];
    assert fields[..0] == none;
    var f := fields[0].0;
    var kids := if EntryOf(db, table, key).Some? then Kids(EntryOf(db, table, key).value) else map[];
    SetEntryAt(db, table, key, Some(Obj(kids + AsMap(fields))), table, key);
    SetEntryAt(db, table, key, Some(Obj(kids - {f})), table, key);
    assert f in (kids + AsMap(fields)) && f !in (kids - {f});
  }

  /** set_entry with one field that is empty is a removal: it does what the plain call does only where the last
      entry already is that field and its removal is refused in silence.
   */
  lemma SingleEmptyIff(tools: Tools, db: Json, table: string, key: string, field: string)
    requires IsConfig(db) && Plain(table) && key != "" && field != "NULL"
    requires ValidatedAfter(tools, db, SetCall(table, key, Some([(field, "")]))).ok
    ensures
      var c := SetCall(table, key, Some([(field, "")]));
      ValidatedAfter(tools, db, c).db == PlainAfter(db, c) <==>
        SilentlyRefused(tools, db, SetCall(table, key, None))
        && EntryOf(db, table, key) == Some(Cleaned([(field, "")]))
  {
    ValidatedMeansPlainIff(tools, db, SetCall(table, key, Some([(field, "")])));
  }

  /** mod_entry with one field that is empty takes the field away, so it never does what the plain call does. */
  lemma SingleEmptyNeverMerges(tools: Tools, db: Json, table: string, key: string, field: string)
    requires IsConfig(db) && Plain(table) && field != "NULL"
    requires ValidatedAfter(tools, db, ModCall(table, key, Some([(field, "")]))).ok
    ensures
      var c := ModCall(table, key, Some([(field, "")]));
      && ValidatedAfter(tools, db, c).db != PlainAfter(db, c)
      && EntryOf(db, table, key).Some? && field in Kids(EntryOf(db, table, key).value)
      && EntryOf(ValidatedAfter(tools, db, c).db, table, key)
         == Some(Obj(Kids(EntryOf(db, table, key).value) - {field}))
  {
    var c := ModCall(table, key, Some([(field, "")]));
    ValidatedMeansPlainIff(tools, db, c);
    ValidatedOutcome(tools, db, c);
    var kids := Kids(EntryOf(db, table, key).value);
    SetEntryAt(db, table, key, Some(Obj(kids - {field})), table, key);
  }

  // ---------- What a validated write leaves ----------

  /** The last value that a dict display with these items gives to the field */
  predicate LastGiven(fields: Fields, f: string, value: string) {
    exists i | 0 <= i < |fields| ::
      fields[i] == (f, value) && forall j | i < j < |fields| :: fields[j].0 != f
  }

  predicate IsGiven(fields: Fields, f: string) {
    exists i | 0 <= i < |fields| :: fields[i].0 == f
  }

  /** The entry has these fields with their last values, and otherwise those of `before`. */
  ghost predicate Holds(entry: Option<Json>, before: map<string, Json>, fields: Fields) {
    && entry.Some? && entry.value.Obj?
    && (forall f :: f in entry.value.m <==> f in before || IsGiven(fields, f))
    && (forall f, value | LastGiven(fields, f, value) :: f in entry.value.m && entry.value.m[f] == Str(value))
    && (forall f | f in before && !IsGiven(fields, f) :: f in entry.value.m && entry.value.m[f] == before[f])
  }

  lemma GivenStep(fields: Fields, f: string)
    requires fields != []
    ensures IsGiven(fields, f) <==> IsGiven(fields[..|fields| - 1], f) || f == fields[|fields| - 1].0
  {
    var most := fields[..|fields| - 1];
    if IsGiven(most, f) {
      var i :| 0 <= i < |most| && most[i].0 == f;
      assert fields[i].0 == f;
    }
    if IsGiven(fields, f) && f != fields[|fields| - 1].0 {
      var i :| 0 <= i < |fields| && fields[i].0 == f;
      assert most[i].0 == f;
    }
  }

  lemma LastGivenStep(fields: Fields, f: string, value: string)
    requires fields != [] && LastGiven(fields, f, value)
    ensures var most, last := fields[..|fields| - 1], fields[|fields| - 1];
      if f == last.0 then value == last.1 else LastGiven(most, f, value)
  {
    var most := fields[..|fields| - 1];
    var i :| 0 <= i < |fields| && fields[i] == (f, value) && forall j | i < j < |fields| :: fields[j].0 != f;
    if i < |most| {
      assert fields[|most|].0 != f;
      assert most[i] == (f, value);
      forall j | i < j < |most| ensures most[j].0 != f { assert fields[j].0 != f; }
    }
  }

  lemma {:induction false} AsMapHolds(before: map<string, Json>, fields: Fields)
    ensures Holds(Some(Obj(before + AsMap(fields))), before, fields)
    decreases |fields|
  {
    if fields != [] {
      AsMapHolds(before, fields[..|fields| - 1]);
      AsMapStep(before, fields);
      forall f ensures IsGiven(fields, f) <==> IsGiven(fields[..|fields| - 1], f) || f == fields[|fields| - 1].0 {
        GivenStep(fields, f);
      }
      forall f, value | LastGiven(fields, f, value)
        ensures if f == fields[|fields| - 1].0 then value == fields[|fields| - 1].1
                else LastGiven(fields[..|fields| - 1], f, value)
      {
        LastGivenStep(fields, f, value);
      }
    }
  }

  /** After a set_entry that writes and does not raise, the entry holds exactly the given fields, none if it was given
      the placeholder, and no other entry has changed.
   */
  lemma SetLeaves(tools: Tools, db: Json, table: string, key: string, fields: Fields)
    requires IsConfig(db) && Plain(table) && key != "" && !(|fields| == 1 && fields[0].1 == "")
    requires ValidatedAfter(tools, db, SetCall(table, key, Some(fields))).ok
    ensures
      var after := ValidatedAfter(tools, db, SetCall(table, key, Some(fields))).db;
      && Holds(EntryOf(after, table, key), map[], if fields == [("NULL", "NULL")] then [] else fields)
      && (forall t, k | t != table || k != key :: EntryOf(after, t, k) == EntryOf(db, t, k))
  {
    SetPatchWrites(db, table, key, fields);
    AcceptedOutcome(tools, db, SetPatch(db, table, key, Some(fields)).value, table);
    var written := if fields == [("NULL", "NULL")] then [] else fields;
    AsMapHolds(map[], written);
    assert map[] + AsMap(written) == AsMap(written);
    var after := ValidatedAfter(tools, db, SetCall(table, key, Some(fields))).db;
    forall t, k ensures EntryOf(after, t, k)
      == if t == table && k == key then Some(Cleaned(fields)) else EntryOf(db, t, k)
    {
      SetEntryAt(db, table, key, Some(Cleaned(fields)), t, k);
    }
  }

  /** After a mod_entry that writes and does not raise, the entry holds the given fields and otherwise its old ones,
      and no other entry has changed.
   */
  lemma ModLeaves(tools: Tools, db: Json, table: string, key: string, fields: Fields)
    requires IsConfig(db) && Plain(table) && !(|fields| == 1 && fields[0].1 == "")
    requires ValidatedAfter(tools, db, ModCall(table, key, Some(fields))).ok
    ensures
      var after, entry := ValidatedAfter(tools, db, ModCall(table, key, Some(fields))).db, EntryOf(db, table, key);
      && Holds(EntryOf(after, table, key), if entry.Some? then Kids(entry.value) else map[], fields)
      && (forall t, k | t != table || k != key :: EntryOf(after, t, k) == EntryOf(db, t, k))
  {
    ModPatchMerges(db, table, key, fields);
    AcceptedOutcome(tools, db, ModPatch(db, table, key, fields), table);
    var entry := EntryOf(db, table, key);
    var before := if entry.Some? then Kids(entry.value) else map[];
    AsMapHolds(before, fields);
    forall t, k ensures EntryOf(ModEntry(db, table, key, AsMap(fields)), t, k)
      == if t == table && k == key then Some(Obj(before + AsMap(fields))) else EntryOf(db, t, k)
    {
      SetEntryAt(db, table, key, Some(Obj(before + AsMap(fields))), t, k);
    }
  }

  // ---------- When a validated call raises ----------

  /** The write that leads to `target` is not permitted, or its patch is not sorted. */
  predicate Refused(tools: Tools, db: Json, patch: Patch, target: Json) {
    !tools.permitted(db, target) || !tools.sort(db, patch).Changes?
  }

  /** What decides, before the call, whether it raises: nothing to act on (an absent entry, field or table, a
      value for no key, no value to merge), or a refused write. The deletion of a table, also for its last key,
      raises only where the sorter fails; before it, the table without keys must be permitted.
   */
  predicate Raises(tools: Tools, db: Json, c: Call)
    requires db.Obj?
  {
    match c
    case SetCall(t, k, fields) =>
      if k == "" then !AsksRemoval(fields) || t !in db.m || Refused(tools, db, DeletePatch(t), DeleteTable(db, t))
      else if !AsksRemoval(fields) then Refused(tools, db, SetPatch(db, t, k, fields).value, PlainAfter(db, c))
      else if LastKey(db, t, k) then !tools.permitted(db, Emptied(db, t)) || DeletionFails(tools, db, t)
      else EntryOf(db, t, k).None? || Refused(tools, db, [Remove(Pointer([t, k]))], SetEntry(db, t, k, None))
    case ModCall(t, k, changes) =>
      if changes.None? then true
      else if !SingleEmpty(changes.value) then Refused(tools, db, ModPatch(db, t, k, changes.value), PlainAfter(db, c))
      else
        var entry, f := EntryOf(db, t, k), changes.value[0].0;
        entry.None? || f !in Kids(entry.value)
        || Refused(tools, db, [Remove(Pointer([t, k, f]))], SetEntry(db, t, k, Some(Obj(Kids(entry.value) - {f}))))
    case DeleteCall(t) => t !in db.m || DeletionFails(tools, db, t)
  }

  predicate DeletionFails(tools: Tools, db: Json, table: string)
    requires db.Obj?
  {
    tools.permitted(db, DeleteTable(db, table)) && tools.sort(db, DeletePatch(table)).Unsortable?
  }

  /** A call raises if and only if Raises, and then it changes nothing. */
  lemma RaisesIff(tools: Tools, db: Json, c: Call)
    requires IsConfig(db) && Meant(c)
    ensures !ValidatedAfter(tools, db, c).ok <==> Raises(tools, db, c)
    ensures !ValidatedAfter(tools, db, c).ok ==> ValidatedAfter(tools, db, c).db == db
  {
    ValidatedOutcome(tools, db, c);
    if c.SetCall? && LastKey(db, c.table, c.key) {
      TableOfConfig(db, c.table);
      assert c.key in Table(db, c.table);
    }
  }

  /** One entry without fields, the only one of its table */
  function Lone(table: string, key: string): Json {
    Obj(map[table := Obj(map[key := Obj(map[])])])
  }

  lemma LoneEntry(table: string, key: string)
    ensures IsConfig(Lone(table, key)) && LastKey(Lone(table, key), table, key)
    ensures SetEntry(Lone(table, key), table, key, None) == Obj(map[])
  {
    var keys := map[key := Obj(map[])];
    assert Shape(Obj(map[]), 2) && Shape(Obj(keys), 1) && NoEmptyList(Obj(keys));
    assert Table(Lone(table, key), table) == keys && keys - {key} == map[];
    assert Lone(table, key).m - {table} == map[];
  }

  /** Where the validation accepts no change, removing the only entry of a table does not raise, and does
      nothing, for every table and key.
   */
  lemma RefusedInSilence(table: string, key: string)
    requires Plain(table) && key != ""
    ensures
      var tools := Tools((_, _) => Invalid, (_, _) => true, (_, _) => []);
      var c := SetCall(table, key, None);
      && SorterSound(tools) && IsConfig(Lone(table, key)) && Meant(c)
      && ValidatedAfter(tools, Lone(table, key), c) == Reply(true, Lone(table, key))
      && PlainAfter(Lone(table, key), c) == Obj(map[])
  {
    LoneEntry(table, key);
    var tools := Tools((_, _) => Invalid, (_, _) => true, (_, _) => []);
    ValidatedOutcome(tools, Lone(table, key), SetCall(table, key, None));
  }

  lemma ValidatedKeepsConfig(tools: Tools, db: Json, c: Call)
    requires IsConfig(db) && SorterSound(tools)
    ensures IsConfig(ValidatedAfter(tools, db, c).db)
  {
    match c
    case SetCall(t, k, fields) =>
      if SetPatch(db, t, k, fields).Some? { PatchedIsConfig(tools, db, SetPatch(db, t, k, fields).value); }
      PatchedIsConfig(tools, db, DeletePatch(t));
    case ModCall(t, k, changes) =>
      if changes.Some? { PatchedIsConfig(tools, db, ModPatch(db, t, k, changes.value)); }
      PatchedIsConfig(tools, db, DeletePatch(t));
    case DeleteCall(t) => PatchedIsConfig(tools, db, DeletePatch(t));
  }

  /** Config DB after a run of validated calls, None as soon as one raises. */
  function ValidatedRun(tools: Tools, db: Json, calls: seq<Call>): Option<Json>
    decreases |calls|
  {
    if calls == [] then Some(db)
    else
      var next := ValidatedAfter(tools, db, calls[0]);
      if !next.ok then None else ValidatedRun(tools, next.db, calls[1..])
  }

  function PlainRun(db: Json, calls: seq<Call>): Json
    requires db.Obj?
    decreases |calls|
  {
    if calls == [] then db else PlainRun(PlainAfter(db, calls[0]), calls[1..])
  }

  /** Each call of the run satisfies the condition in the state that it meets. */
  predicate PlainThroughout(tools: Tools, db: Json, calls: seq<Call>)
    requires db.Obj?
    decreases |calls|
  {
    calls == [] || (
      && SameAsPlain(tools, db, calls[0])
      && PlainThroughout(tools, PlainAfter(db, calls[0]), calls[1..]))
  }

  /** No call of the run raises in the state that it meets. */
  predicate NeverRaises(tools: Tools, db: Json, calls: seq<Call>)
    requires db.Obj?
    decreases |calls|
  {
    calls == [] || (
      && !Raises(tools, db, calls[0])
      && NeverRaises(tools, PlainAfter(db, calls[0]), calls[1..]))
  }

  /** Any run of validated calls, each of them the same as the plain call, ends in the same Config DB as the run of the
      plain calls, and raises exactly if one of them does.
   */
  lemma {:induction false} ValidatedRunIsPlainRun(tools: Tools, db: Json, calls: seq<Call>)
    requires IsConfig(db) && SorterSound(tools) && forall c | c in calls :: Meant(c)
    requires PlainThroughout(tools, db, calls)
    ensures ValidatedRun(tools, db, calls) == if NeverRaises(tools, db, calls) then Some(PlainRun(db, calls)) else None
    decreases |calls|
  {
    if calls != [] {
      assert calls[0] in calls;
      RaisesIff(tools, db, calls[0]);
      if !Raises(tools, db, calls[0]) {
        ValidatedMeansPlainIff(tools, db, calls[0]);
        ValidatedKeepsConfig(tools, db, calls[0]);
        ValidatedRunIsPlainRun(tools, PlainAfter(db, calls[0]), calls[1..]);
      }
    }
  }

  /** set_entry with an empty key and no value builds the patch that deletes the whole table. If that is
      carried out, the table is gone, although the plain call deletes at most the entry of the empty key.
   */
  lemma EmptyKeyDeletesTable(tools: Tools, db: Json, table: string)
    requires IsConfig(db) && Plain(table)
    ensures SetPatch(db, table, "", None) == Some(DeletePatch(table))
    ensures Verdict(tools, db, DeletePatch(table)).Done? ==>
      ValidatedAfter(tools, db, SetCall(table, "", None)) == Reply(true, DeleteTable(db, table))
    ensures table in db.m ==>
      (DeleteTable(db, table) == PlainAfter(db, SetCall(table, "", None)) <==> Table(db, table).Keys == {""})
  {
    DeleteApplies(db, table);
    if table in db.m {
      TableOfConfig(db, table);
      KeptIsConfig(DeleteTable(db, table));
      var plain := SetEntry(db, table, "", None);
      var rest := Table(db, table) - {""};
      assert rest == map[] <==> rest.Keys == {};
      assert rest.Keys == Table(db, table).Keys - {""};
      assert rest != map[] ==> table in plain.m;
    }
  }

  /** set_entry with an empty key and a value always raises. */
  lemma EmptyKeyAddRaises(tools: Tools, db: Json, table: string, fields: Fields)
    requires !SingleEmpty(fields)
    ensures ValidatedAfter(tools, db, SetCall(table, "", Some(fields))) == Reply(false, db)
  {
  }

  class ValidatedConfigDBConnector {
    const patchApplier: PatchApplier

    constructor (patchApplier: PatchApplier)
      ensures this.patchApplier == patchApplier
    {
      this.patchApplier := patchApplier;
    }

    /** The part of create_gcu_patch that makes sure the path is there. */
    method CreatePath(table: string, key: string) returns (patch: Patch)
      ensures patch == Header(patchApplier.configDb.data, table, key)
    {
      patch := [];
      var db := patchApplier.configDb.data;
      if Table(db, table) == map[] {
        patch := [Add(TablePath(table), Obj(map[]))];
      }
      if EntryOf(db, table, key).None? || !Truthy(EntryOf(db, table, key).value) {
        patch := patch + [Add(Pointer([table, key]), Obj(map[]))];
      }
    }

    function HeaderIf(add: bool, table: string, key: string): Patch
      reads patchApplier.configDb
    {
      if add then Header(patchApplier.configDb.data, table, key) else []
    }

    /** create_gcu_patch; with modEntry, one operation for each field. None stands for the exception. */
    method CreateGcuPatch(add: bool, table: string, key: string, value: Fields, modEntry: bool)
      returns (patch: Option<Patch>)
      ensures patch.None? <==> add && !modEntry && key == ""
      ensures patch.Some? && modEntry ==> patch.value == HeaderIf(add, table, key) + FieldOps(add, table, key, value)
      ensures patch.Some? && !modEntry && add ==>
        patch.value == HeaderIf(add, table, key) + [Add(Pointer([table, key]), Cleaned(value))]
      ensures patch.Some? && !modEntry && !add ==>
        patch.value == [Remove(if key == "" then TablePath(table) else Pointer([table, key]))]
    {
      var ops: Patch := [];
      if add {
        ops := CreatePath(table, key);
      }
      ghost var header := ops;
      if !modEntry {
        if key == "" {
          return if add then None else Some(ops + [Remove(TablePath(table))]);
        }
        return Some(ops + [if add then Add(Pointer([table, key]), Cleaned(value)) else Remove(Pointer([table, key]))]);
      }
      for i := 0 to |value|
        invariant ops == header + FieldOps(add, table, key, value[..i])
      {
        assert value[..i + 1][..i] == value[..i];
        ops := ops + [FieldOp(add, table, key, value[i])];
      }
      assert value[..|value|] == value;
      patch := Some(ops);
    }

    ghost predicate Ready()
      reads patchApplier.configDb
    {
      patchApplier.Wired() && SorterSound(patchApplier.tools) && IsConfig(patchApplier.configDb.data)
    }

    /** validated_delete_table; false stands for an exception */
    method ValidatedDeleteTable(table: string) returns (ok: bool)
      requires Ready()
      modifies patchApplier.configDb
      ensures Ready()
      ensures Reply(ok, patchApplier.configDb.data)
           == ValidatedAfter(patchApplier.tools, old(patchApplier.configDb.data), DeleteCall(table))
    {
      var r := patchApplier.Apply([Remove(TablePath(table))]);
      ok := r.Done? || r.NotPermitted? || r.EmptyTables? || r.InvalidTarget?;
    }

    /** apply_patch */
    method ApplyPatch(patch: Patch, table: string) returns (ok: bool)
      requires Ready()
      modifies patchApplier.configDb
      ensures Ready()
      ensures Reply(ok, patchApplier.configDb.data)
           == PatchAfter(patchApplier.tools, old(patchApplier.configDb.data), patch, table)
    {
      var r := patchApplier.Apply(patch);
      if r.EmptyTables? {
        ok := ValidatedDeleteTable(table);
      } else {
        ok := r.Done?;
      }
    }

    /** validated_set_entry */
    method ValidatedSetEntry(table: string, key: string, value: Option<Fields>) returns (ok: bool)
      requires Ready()
      modifies patchApplier.configDb
      ensures Ready()
      ensures Reply(ok, patchApplier.configDb.data)
           == ValidatedAfter(patchApplier.tools, old(patchApplier.configDb.data), SetCall(table, key, value))
      ensures ok && Plain(table) && key != "" && value.Some? && !(|value.value| == 1 && value.value[0].1 == "") ==>
        && Holds(EntryOf(patchApplier.configDb.data, table, key), map[],
                 if value.value == [("NULL", "NULL")] then [] else value.value)
        && forall t, k | t != table || k != key ::
             EntryOf(patchApplier.configDb.data, t, k) == EntryOf(old(patchApplier.configDb.data), t, k)
    {
      ghost var before := patchApplier.configDb.data;
      var add := value.Some? && !SingleEmpty(value.value);
      var patch := CreateGcuPatch(add, table, key, if value.Some? then value.value else [], false);
      assert patch == SetPatch(patchApplier.configDb.data, table, key, value);
      if patch.None? {
        return false;
      }
      ok := ApplyPatch(patch.value, table);
      if ok && Plain(table) && key != "" && add {
        SetLeaves(patchApplier.tools, before, table, key, value.value);
      }
    }

    /** validated_mod_entry; without a value it raises before anything is applied */
    method ValidatedModEntry(table: string, key: string, value: Option<Fields>) returns (ok: bool)
      requires Ready()
      modifies patchApplier.configDb
      ensures Ready()
      ensures Reply(ok, patchApplier.configDb.data)
           == ValidatedAfter(patchApplier.tools, old(patchApplier.configDb.data), ModCall(table, key, value))
      ensures ok && Plain(table) && !(|value.value| == 1 && value.value[0].1 == "") ==>
        var entry := EntryOf(old(patchApplier.configDb.data), table, key);
        && Holds(EntryOf(patchApplier.configDb.data, table, key), if entry.Some? then Kids(entry.value) else map[],
                 value.value)
        && forall t, k | t != table || k != key ::
             EntryOf(patchApplier.configDb.data, t, k) == EntryOf(old(patchApplier.configDb.data), t, k)
    {
      ghost var before := patchApplier.configDb.data;
      if value.None? {
        return false;
      }
      var patch := CreateGcuPatch(!SingleEmpty(value.value), table, key, value.value, true);
      ghost var none: Patch := [];
      assert none + FieldOps(false, table, key, value.value) == FieldOps(false, table, key, value.value);
      assert patch == Some(ModPatch(patchApplier.configDb.data, table, key, value.value));
      ok := ApplyPatch(patch.value, table);
      if ok && Plain(table) && !SingleEmpty(value.value) {
        ModLeaves(patchApplier.tools, before, table, key, value.value);
      }
    }
  }

}
