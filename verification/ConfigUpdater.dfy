/** The generic config updater: a JSON patch is simulated, sorted into changes, applied change by
    change and checked; replacing a whole config and rolling back to a checkpoint are built on that.
 */
module ConfigUpdater {
  import opened JsonTree
  import opened ConfigStore
  import opened JsonPatch

  // ---------- The parts that are looked at from outside ----------

  /** What the patch sorter answers: changes, a ValueError, or another exception. */
  datatype Sorting = Changes(changes: seq<Patch>) | Invalid | Unsortable

  /** The patch sorter, the check on restricted fields, and jsonpatch.make_patch. */
  datatype Tools = Tools(
    sort: (Json, Patch) -> Sorting,
    permitted: (Json, Json) -> bool,
    makePatch: (Json, Json) -> Patch)

  /** prune_empty_table */
  function Prune(config: Json): Json {
    if config.Obj? then Obj(map t | t in config.m && Truthy(config.m[t]) :: config.m[t]) else config
  }

  /** get_empty_tables finds something. */
  predicate HasEmptyTable(config: Json) {
    config.Obj? && exists t | t in config.m :: !Truthy(config.m[t])
  }

  /** The changes apply in order, with empty tables pruned after each and each result kept by the store,
      and end at `target`.
   */
  predicate LeadTo(config: Json, changes: seq<Patch>, target: Json)
    decreases |changes|
  {
    if changes == [] then config == target
    else
      var next := Apply(config, changes[0]);
      next.Some? && Shape(Prune(next.value), 0) && LeadTo(Kept(Prune(next.value)), changes[1..], target)
  }

  /** The contract of the sorter: it accepts only patches that lead to tables of entries of fields, and its
      changes lead to that result as the store keeps it.
   */
  ghost predicate SorterSound(tools: Tools) {
    forall config, patch | IsConfig(config) && tools.sort(config, patch).Changes? && Apply(config, patch).Some?
        && !HasEmptyTable(Apply(config, patch).value) ::
      && Shape(Apply(config, patch).value, 0)
      && LeadTo(config, tools.sort(config, patch).changes, Kept(Apply(config, patch).value))
  }

  /** The contract of make_patch. */
  ghost predicate MakePatchSound(tools: Tools) {
    forall a, b :: Apply(a, tools.makePatch(a, b)) == Some(b)
  }

  const BACKEND_TABLES := {"BUFFER_PG", "BUFFER_PROFILE", "FLEX_COUNTER_TABLE"}

  /** remove_backend_tables_from_config */
  function WithoutBackend(config: Json): Json {
    if config.Obj? then Obj(config.m - BACKEND_TABLES) else config
  }

  /** Outside the backend tables, reading the document back from the store gives the same. */
  predicate ReadsBack(config: Json) {
    WithoutBackend(Kept(config)) == WithoutBackend(config)
  }

  /** How applying a patch ends. */
  datatype Status =
    | Done | PatchConflict | NotPermitted | EmptyTables | InvalidTarget | NotSortable | ChangeConflict | StillDifferent

  /** What decides the outcome of applying a patch, in the order of the checks. */
  function Verdict(tools: Tools, config: Json, patch: Patch): Status {
    var target := Apply(config, patch);
    if target.None? then PatchConflict
    else if !tools.permitted(config, target.value) then NotPermitted
    else if HasEmptyTable(target.value) then EmptyTables
    else match tools.sort(config, patch)
      case Invalid => InvalidTarget
      case Unsortable => NotSortable
      case Changes(_) => if ReadsBack(target.value) then Done else StillDifferent
  }

  /** The patch got as far as its changes. */
  predicate Carried(tools: Tools, config: Json, patch: Patch) {
    Verdict(tools, config, patch).Done? || Verdict(tools, config, patch).StillDifferent?
  }

  /** Config DB after applying a patch. */
  function Patched(tools: Tools, config: Json, patch: Patch): Json {
    if Carried(tools, config, patch) then Kept(Apply(config, patch).value) else config
  }

  /** Config DB stays a config through every patch, and a patch whose result is one is exact. */
  lemma PatchedIsConfig(tools: Tools, config: Json, patch: Patch)
    requires SorterSound(tools) && IsConfig(config)
    ensures IsConfig(Patched(tools, config, patch))
    ensures Carried(tools, config, patch) ==> Shape(Apply(config, patch).value, 0)
  {
    if Carried(tools, config, patch) {
      KeptIsConfig(Apply(config, patch).value);
    }
  }

  /** A patch is only then reported as not fully applied when its result holds an empty list outside the
      backend tables: the store gives that back as the list of one empty string.
   */
  lemma StillDifferentIff(tools: Tools, config: Json, patch: Patch)
    requires SorterSound(tools) && IsConfig(config) && Carried(tools, config, patch)
    ensures Verdict(tools, config, patch).StillDifferent? <==> !NoEmptyList(WithoutBackend(Apply(config, patch).value))
  {
    var target := Apply(config, patch).value;
    var shown := WithoutBackend(target);
    assert forall t | t in shown.m :: Shape(shown.m[t], 1);
    KeptIsConfig(shown);
    assert WithoutBackend(Kept(target)).m == Kept(shown).m;
  }

  /** The simplest sorter: the whole patch as one change, if its result is tables of entries of fields */
  function OneChange(config: Json, patch: Patch): Sorting {
    var target := Apply(config, patch);
    if target.Some? && Shape(target.value, 0) then Changes([patch]) else Invalid
  }

  /** Tools that permit everything, with the simplest sorter and the patch that replaces the whole document */
  function SimpleTools(): Tools {
    Tools(OneChange, (_, _) => true, (_, b) => [Op.Replace("", b)])
  }

  /** The contracts of the sorter and of make_patch can be met. */
  lemma SimpleToolsSound()
    ensures SorterSound(SimpleTools()) && MakePatchSound(SimpleTools())
  {
    var tools := SimpleTools();
    forall config, patch | IsConfig(config) && tools.sort(config, patch).Changes? && Apply(config, patch).Some?
        && !HasEmptyTable(Apply(config, patch).value)
      ensures Shape(Apply(config, patch).value, 0)
      ensures LeadTo(config, tools.sort(config, patch).changes, Kept(Apply(config, patch).value))
    {
      var target := Apply(config, patch).value;
      assert Prune(target).m == target.m;
      assert tools.sort(config, patch) == Changes([patch]) && [patch][1..] == [];
    }
    forall a, b ensures Apply(a, tools.makePatch(a, b)) == Some(b) {
      ReplaceWhole(a, b);
    }
  }

  lemma ReplaceWhole(doc: Json, target: Json)
    ensures Apply(doc, [Op.Replace("", target)]) == Some(target)
  {
    assert [Op.Replace("", target)][1..] == [];
  }

  function OneField(table: string, key: string, field: string, value: Json): Json {
    Obj(map[table := Obj(map[key := Obj(map[field := value])])])
  }

  lemma OneFieldShape(table: string, key: string, field: string)
    ensures Shape(OneField(table, key, field, Arr([])), 0) && !NoEmptyList(OneField(table, key, field, Arr([])))
  {
    var entry := Obj(map[field := Arr([])]);
    var keys := Obj(map[key := entry]);
    assert entry.m[field] == Arr([]) && !NoEmptyList(entry);
    assert key in keys.m && keys.m[key] == entry;
    assert Shape(keys, 1);
    assert OneField(table, key, field, Arr([])).m[table] == keys;
  }

  /** From every config, a patch to a document with an empty list, outside the backend tables, is carried out and
      still reported as not fully applied: Config DB then holds the list of one empty string.
   */
  lemma EmptyListReported(config: Json, table: string, key: string, field: string)
    requires IsConfig(config) && table !in BACKEND_TABLES
    ensures
      var patch := [Op.Replace("", OneField(table, key, field, Arr([])))];
      && Verdict(SimpleTools(), config, patch).StillDifferent?
      && Patched(SimpleTools(), config, patch) == OneField(table, key, field, Arr([""]))
  {
    var target := OneField(table, key, field, Arr([]));
    ReplaceWhole(config, target);
    OneFieldShape(table, key, field);
    SimpleToolsSound();
    var shown := WithoutBackend(target);
    assert shown.m == target.m;
    assert target.m[table] == Obj(map[key := Obj(map[field := Arr([])])]);
    var patch := [Op.Replace("", target)];
    assert !HasEmptyTable(target);
    StillDifferentIff(SimpleTools(), config, patch);
    EmptyListKept(table, key, field);
  }

  lemma EmptyListKept(table: string, key: string, field: string)
    ensures Kept(OneField(table, key, field, Arr([]))) == OneField(table, key, field, Arr([""]))
  {
    var entry := Obj(map[field := Arr([])]);
    assert KeptEntry(entry).m == map[field := Arr([""])];
    assert KeptTable(Obj(map[key := entry])).m == map[key := KeptEntry(entry)];
    assert Kept(OneField(table, key, field, Arr([]))).m == map[table := KeptTable(Obj(map[key := entry]))];
  }

  // ---------- Config DB and the change applier ----------

  class ConfigDb {
    var data: Json
    ghost var writes: seq<(string, string)>

    constructor (data: Json)
      ensures this.data == data && writes == []
    {
      this.data, writes := data, [];
    }

    method SetEntry(t: string, k: string, entry: Option<Json>)
      requires data.Obj?
      modifies this
      ensures data == ConfigStore.SetEntry(old(data), t, k, KeptIfAny(entry))
      ensures writes == old(writes) + [(t, k)]
    {
      data := ConfigStore.SetEntry(data, t, k, KeptIfAny(entry));
      writes := writes + [(t, k)];
    }
  }

  /** The (table, key) pairs at which two configs differ. */
  ghost function Differing(a: Json, b: Json): iset<(string, string)> {
    iset t: string, k: string | EntryOf(a, t, k) != EntryOf(b, t, k) :: (t, k)
  }

  class ChangeApplier {
    const configDb: ConfigDb

    constructor (configDb: ConfigDb)
      ensures this.configDb == configDb
    {
      this.configDb := configDb;
    }

    /** _upd_data, visiting the keys of the table in any order */
    method UpdData(tbl: string, runTbl: map<string, Json>, updTbl: map<string, Json>, updKeys0: set<(string, string)>)
      returns (updKeys: set<(string, string)>)
      requires IsConfig(configDb.data) && Table(configDb.data, tbl) == runTbl
      requires forall k | k in updTbl :: Shape(updTbl[k], 2)
      requires forall p | p in updKeys0 :: p.0 != tbl
      modifies configDb
      ensures IsConfig(configDb.data)
      ensures forall t, k ::
        EntryOf(configDb.data, t, k) == if t == tbl then KeptIfAny(Lookup(updTbl, k))
          else EntryOf(old(configDb.data), t, k)
      ensures forall p :: p in updKeys <==> p in updKeys0 || (p.0 == tbl && Lookup(runTbl, p.1) != Lookup(updTbl, p.1))
      ensures multiset(configDb.writes) == multiset(old(configDb.writes)) + multiset(updKeys - updKeys0)
    {
      updKeys := updKeys0;
      TableOfConfig(configDb.data, tbl);
      var keys := runTbl.Keys + updTbl.Keys;
      var todo := keys;
      while todo != {}
        invariant todo <= keys && IsConfig(configDb.data)
        invariant Halfway(configDb.data, old(configDb.data), tbl, updTbl, todo)
        invariant forall p :: p in updKeys <==>
          p in updKeys0 || (p.0 == tbl && p.1 !in todo && Lookup(runTbl, p.1) != Lookup(updTbl, p.1))
        invariant multiset(configDb.writes) == multiset(old(configDb.writes)) + multiset(updKeys - updKeys0)
      {
        var key :| key in todo;
        var updData := Lookup(updTbl, key);
        ghost var before, keysBefore := configDb.data, updKeys;
        if updData.Some? { KeptIsEntry(updData.value); }
        if Lookup(runTbl, key) != updData {
          configDb.SetEntry(tbl, key, updData);
          updKeys := updKeys + {(tbl, key)};
          SetEntryIsConfig(before, tbl, key, KeptIfAny(updData));
          assert updKeys - updKeys0 == (keysBefore - updKeys0) + {(tbl, key)};
          assert (tbl, key) !in keysBefore - updKeys0;
          WrittenHalfway(before, old(configDb.data), tbl, updTbl, todo, key);
        } else {
          SkippedHalfway(before, old(configDb.data), tbl, updTbl, todo, key);
        }
        todo := todo - {key};
      }
    }

    /** apply. ok is false when the change itself cannot be applied, and then nothing is written.
        Otherwise exactly the entries that differ are written, each once, and recorded, whatever
        the order of tables and keys, and Config DB keeps the pruned result of the change. A mismatch is
        reported exactly if the store cannot give that result back.
     */
    method Apply(change: Patch) returns (ok: bool, updKeys: set<(string, string)>, ret: int)
      requires IsConfig(configDb.data)
      requires JsonPatch.Apply(configDb.data, change).Some? ==>
        Shape(Prune(JsonPatch.Apply(configDb.data, change).value), 0)
      modifies configDb
      ensures ok <==> JsonPatch.Apply(old(configDb.data), change).Some?
      ensures !ok ==> configDb.data == old(configDb.data) && configDb.writes == old(configDb.writes)
      ensures ok ==>
        var upd := Prune(JsonPatch.Apply(old(configDb.data), change).value);
        && configDb.data == Kept(upd) && IsConfig(configDb.data)
        && ret == (if ReadsBack(upd) then 0 else -1)
        && (forall p :: p in updKeys <==> p in Differing(old(configDb.data), upd))
        && multiset(configDb.writes) == multiset(old(configDb.writes)) + multiset(updKeys)
    {
      var runData := configDb.data;
      var changed := JsonPatch.Apply(runData, change);
      updKeys, ret := {}, 0;
      if changed.None? {
        return false, updKeys, ret;
      }
      ok := true;
      var updData := Prune(changed.value);
      updKeys := UpdTables(runData, updData);
      KeptIsConfig(updData);
      forall t, k ensures EntryOf(configDb.data, t, k) == EntryOf(Kept(updData), t, k) {
        KeptAt(updData, t, k);
      }
      SameEntries(configDb.data, Kept(updData));
      if WithoutBackend(updData) != WithoutBackend(configDb.data) {
        ret := -1;
      }
    }

    /** The loop over the tables of both configs, in any order */
    method UpdTables(runData: Json, updData: Json) returns (updKeys: set<(string, string)>)
      requires IsConfig(runData) && Shape(updData, 0) && configDb.data == runData
      modifies configDb
      ensures IsConfig(configDb.data) && forall t, k ::
        EntryOf(configDb.data, t, k) == KeptIfAny(EntryOf(updData, t, k))
      ensures forall p :: p in updKeys <==> p in Differing(runData, updData)
      ensures multiset(configDb.writes) == multiset(old(configDb.writes)) + multiset(updKeys)
    {
      updKeys := {};
      var tables := runData.m.Keys + updData.m.Keys;
      var todo := tables;
      while todo != {}
        invariant todo <= tables && IsConfig(configDb.data)
        invariant Mixed(configDb.data, runData, updData, tables - todo)
        invariant Recorded(updKeys, runData, updData, tables - todo)
        invariant multiset(configDb.writes) == multiset(old(configDb.writes)) + multiset(updKeys)
      {
        var tbl :| tbl in todo;
        updKeys := UpdTable(tbl, runData, updData, tables - todo, updKeys);
        assert tables - (todo - {tbl}) == tables - todo + {tbl};
        todo := todo - {tbl};
      }
      forall t, k ensures t !in tables ==> EntryOf(runData, t, k) == None && EntryOf(updData, t, k) == None {
      }
    }

    /** One table, after those that are done */
    method UpdTable(tbl: string, runData: Json, updData: Json, ghost done: set<string>, updKeys0: set<(string, string)>)
      returns (updKeys: set<(string, string)>)
      requires IsConfig(configDb.data) && Shape(updData, 0) && Mixed(configDb.data, runData, updData, done)
        && tbl !in done
      requires Recorded(updKeys0, runData, updData, done)
      modifies configDb
      ensures IsConfig(configDb.data) && Mixed(configDb.data, runData, updData, done + {tbl})
      ensures Recorded(updKeys, runData, updData, done + {tbl})
      ensures multiset(configDb.writes) == multiset(old(configDb.writes)) + (multiset(updKeys) - multiset(updKeys0))
      ensures updKeys0 <= updKeys
    {
      TableOfShape(updData, tbl);
      MixedTable(configDb.data, runData, updData, done, tbl);
      ghost var before := configDb.data;
      updKeys := UpdData(tbl, Table(runData, tbl), Table(updData, tbl), updKeys0);
      assert multiset(updKeys - updKeys0) == multiset(updKeys) - multiset(updKeys0);
      MixedStep(before, configDb.data, runData, updData, done, tbl);
    }
  }

  /** Of one table, the keys that are no longer to do are as the store keeps those of upd. */
  ghost predicate Halfway(data: Json, start: Json, tbl: string, updTbl: map<string, Json>, todo: set<string>) {
    forall t, k ::
      EntryOf(data, t, k) == if t == tbl && k !in todo then KeptIfAny(Lookup(updTbl, k)) else EntryOf(start, t, k)
  }

  lemma WrittenHalfway(data: Json, start: Json, tbl: string, updTbl: map<string, Json>, todo: set<string>, key: string)
    requires Halfway(data, start, tbl, updTbl, todo) && key in todo && data.Obj?
    ensures Halfway(ConfigStore.SetEntry(data, tbl, key, KeptIfAny(Lookup(updTbl, key))), start, tbl, updTbl,
      todo - {key})
  {
    var after := ConfigStore.SetEntry(data, tbl, key, KeptIfAny(Lookup(updTbl, key)));
    forall t, k ensures EntryOf(after, t, k)
      == if t == tbl && k !in todo - {key} then KeptIfAny(Lookup(updTbl, k)) else EntryOf(start, t, k)
    {
      SetEntryAt(data, tbl, key, KeptIfAny(Lookup(updTbl, key)), t, k);
    }
  }

  lemma SkippedHalfway(data: Json, start: Json, tbl: string, updTbl: map<string, Json>, todo: set<string>, key: string)
    requires Halfway(data, start, tbl, updTbl, todo) && key in todo && IsConfig(start)
    requires EntryOf(start, tbl, key) == Lookup(updTbl, key)
    ensures Halfway(data, start, tbl, updTbl, todo - {key})
  {
    TableOfConfig(start, tbl);
    if key in updTbl {
      KeptIsEntry(updTbl[key]);
    }
  }

  /** The tables done so far are those of upd as the store keeps them, the others those of run. */
  ghost predicate Mixed(data: Json, run: Json, upd: Json, done: set<string>) {
    forall t, k :: EntryOf(data, t, k) == if t in done then KeptIfAny(EntryOf(upd, t, k)) else EntryOf(run, t, k)
  }

  /** The pairs recorded so far are those of the done tables at which the configs differ. */
  ghost predicate Recorded(updKeys: set<(string, string)>, run: Json, upd: Json, done: set<string>) {
    forall p :: p in updKeys <==> p.0 in done && p in Differing(run, upd)
  }

  lemma MixedTable(data: Json, run: Json, upd: Json, done: set<string>, t: string)
    requires Mixed(data, run, upd, done) && t !in done
    ensures Table(data, t) == Table(run, t)
  {
    forall k ensures EntryOf(data, t, k) == EntryOf(run, t, k) {
    }
    SameTable(data, run, t);
  }

  lemma MixedStep(before: Json, after: Json, run: Json, upd: Json, done: set<string>, tbl: string)
    requires Mixed(before, run, upd, done) && tbl !in done
    requires forall t, k ::
      EntryOf(after, t, k) == if t == tbl then KeptIfAny(Lookup(Table(upd, tbl), k)) else EntryOf(before, t, k)
    ensures Mixed(after, run, upd, done + {tbl})
  {
  }

  lemma SameTable(a: Json, b: Json, t: string)
    requires forall k :: EntryOf(a, t, k) == EntryOf(b, t, k)
    ensures Table(a, t) == Table(b, t)
  {
    forall k: string ensures Lookup(Table(a, t), k) == Lookup(Table(b, t), k) {
      assert EntryOf(a, t, k) == EntryOf(b, t, k);
    }
    SameLookups(Table(a, t), Table(b, t));
  }

  // ---------- Patch applier, replacer, rollbacker ----------

  class PatchApplier {
    const tools: Tools
    const configDb: ConfigDb
    const changeApplier: ChangeApplier

    constructor (tools: Tools, configDb: ConfigDb)
      ensures this.tools == tools && this.configDb == configDb && Wired() && fresh(changeApplier)
    {
      this.tools, this.configDb := tools, configDb;
      var applier := new ChangeApplier(configDb);
      this.changeApplier := applier;
    }

    predicate Wired() {
      changeApplier.configDb == configDb
    }

    /** apply. Under the sorter's contract the change loop never fails, and Config DB is the simulated target as
        the store keeps it. The final comparison finds a difference exactly if that cannot be read back.
     */
    method Apply(patch: Patch) returns (r: Status)
      requires Wired() && SorterSound(tools) && IsConfig(configDb.data)
      modifies configDb
      ensures r == Verdict(tools, old(configDb.data), patch)
      ensures configDb.data == Patched(tools, old(configDb.data), patch)
      ensures IsConfig(configDb.data)
      ensures r.Done? ==>
        var target := JsonPatch.Apply(old(configDb.data), patch).value;
        WithoutBackend(configDb.data) == WithoutBackend(target) && (IsConfig(target) ==> configDb.data == target)
      ensures !r.Done? && !r.StillDifferent? ==> configDb.writes == old(configDb.writes)
    {
      var oldConfig := configDb.data;
      var simulated := JsonPatch.Apply(oldConfig, patch);
      if simulated.None? {
        return PatchConflict;
      }
      var targetConfig := simulated.value;
      if !tools.permitted(oldConfig, targetConfig) {
        return NotPermitted;
      }
      if HasEmptyTable(targetConfig) {
        return EmptyTables;
      }
      var sorting := tools.sort(oldConfig, patch);
      if !sorting.Changes? {
        return if sorting.Invalid? then InvalidTarget else NotSortable;
      }
      var changes := sorting.changes;
      KeptIsConfig(targetConfig);
      assert changes[0..] == changes;
      for i := 0 to |changes|
        invariant IsConfig(configDb.data) && LeadTo(configDb.data, changes[i..], Kept(targetConfig))
      {
        assert changes[i..][1..] == changes[i + 1..];
        var ok, _, _ := changeApplier.Apply(changes[i]);
        if !ok {
          return ChangeConflict;
        }
      }
      var newConfig := configDb.data;
      if WithoutBackend(targetConfig) != WithoutBackend(newConfig) {
        return StillDifferent;
      }
      r := Done;
    }
  }

  class ConfigReplacer {
    const patchApplier: PatchApplier

    constructor (patchApplier: PatchApplier)
      ensures this.patchApplier == patchApplier
    {
      this.patchApplier := patchApplier;
    }

    /** replace. If the patch is not refused, the target is what Config DB then keeps. */
    method Replace(target: Json) returns (r: Status)
      requires patchApplier.Wired() && IsConfig(patchApplier.configDb.data)
      requires SorterSound(patchApplier.tools) && MakePatchSound(patchApplier.tools)
      modifies patchApplier.configDb
      ensures r == ReplaceVerdict(patchApplier.tools, old(patchApplier.configDb.data), target)
      ensures patchApplier.configDb.data == Replaced(patchApplier.tools, old(patchApplier.configDb.data), target)
      ensures r.Done? ==> patchApplier.configDb.data == target
      ensures IsConfig(patchApplier.configDb.data)
    {
      var patch := patchApplier.tools.makePatch(patchApplier.configDb.data, target);
      PatchedIsConfig(patchApplier.tools, patchApplier.configDb.data, patch);
      r := patchApplier.Apply(patch);
      if r.Done? && patchApplier.configDb.data != target {
        r := StillDifferent;
      }
    }
  }

  /** How replacing the config ends: the comparison at its end spares no table. */
  function ReplaceVerdict(tools: Tools, db: Json, target: Json): Status {
    var verdict := Verdict(tools, db, tools.makePatch(db, target));
    if verdict.Done? && Kept(target) != target then StillDifferent else verdict
  }

  function Replaced(tools: Tools, db: Json, target: Json): Json {
    if Carried(tools, db, tools.makePatch(db, target)) then Kept(target) else db
  }

  const CHECKPOINT_EXT := ".cp.json"

  /** The file a checkpoint of this name is kept in, within the checkpoints directory. */
  function FileName(name: string): string {
    name + CHECKPOINT_EXT
  }

  predicate IsCheckpointFile(file: string) {
    |CHECKPOINT_EXT| <= |file| && file[|file| - |CHECKPOINT_EXT|..] == CHECKPOINT_EXT
  }

  lemma FileNameInjective(a: string, b: string)
    ensures FileName(a) == FileName(b) <==> a == b
    ensures IsCheckpointFile(FileName(a)) && FileName(a)[..|FileName(a)| - |CHECKPOINT_EXT|] == a
  {
    assert FileName(a)[..|a|] == a && FileName(b)[..|b|] == b;
    assert FileName(a)[|a|..] == CHECKPOINT_EXT;
  }

  class FileSystemConfigRollbacker {
    const configReplacer: ConfigReplacer
    var files: map<string, Json>

    constructor (configReplacer: ConfigReplacer)
      ensures this.configReplacer == configReplacer && files == map[]
    {
      this.configReplacer, files := configReplacer, map[];
    }

    ghost predicate Ready()
      reads this, configReplacer.patchApplier.configDb
    {
      && configReplacer.patchApplier.Wired() && IsConfig(configReplacer.patchApplier.configDb.data)
      && SorterSound(configReplacer.patchApplier.tools) && MakePatchSound(configReplacer.patchApplier.tools)
    }

    ghost function State(): World
      reads this, configReplacer.patchApplier.configDb
    {
      World(configReplacer.patchApplier.configDb.data, files)
    }

    /** rollback; false stands for the exception */
    method Rollback(name: string) returns (ok: bool)
      requires Ready()
      modifies configReplacer.patchApplier.configDb
      ensures Ready() && State() == After(configReplacer.patchApplier.tools, old(State()), Command.Rollback(name))
      ensures ok <==> Accepted(configReplacer.patchApplier.tools, old(State()), Command.Rollback(name))
    {
      if FileName(name) !in files {
        return false;
      }
      var r := configReplacer.Replace(files[FileName(name)]);
      ok := r.Done?;
    }

    /** checkpoint */
    method Checkpoint(name: string)
      requires Ready()
      modifies this
      ensures Ready() && State() == After(configReplacer.patchApplier.tools, old(State()), Command.Checkpoint(name))
    {
      files := files[FileName(name) := configReplacer.patchApplier.configDb.data];
    }

    /** delete_checkpoint */
    method DeleteCheckpoint(name: string) returns (ok: bool)
      requires Ready()
      modifies this
      ensures Ready() && State() == After(configReplacer.patchApplier.tools, old(State()), Delete(name))
      ensures ok <==> Accepted(configReplacer.patchApplier.tools, old(State()), Delete(name))
    {
      if FileName(name) !in files {
        return false;
      }
      files := files - {FileName(name)};
      ok := true;
    }

    /** list_checkpoints: the live names, in the order in which the directory lists its files */
    method ListCheckpoints() returns (names: seq<string>)
      ensures forall n :: n in names <==> FileName(n) in files
    {
      names := [];
      var todo := files.Keys;
      while todo != {}
        invariant todo <= files.Keys
        invariant forall n :: n in names <==> FileName(n) in files && FileName(n) !in todo
      {
        var file :| file in todo;
        if IsCheckpointFile(file) {
          var name := file[..|file| - |CHECKPOINT_EXT|];
          assert FileName(name) == file;
          forall n ensures FileName(n) == file <==> n == name { FileNameInjective(n, name); }
          names := names + [name];
        } else {
          forall n ensures FileName(n) != file { FileNameInjective(n, n); }
        }
        todo := todo - {file};
      }
    }
  }

  // ---------- Runs of commands ----------

  datatype World = World(db: Json, files: map<string, Json>)

  datatype Command =
    | ApplyPatch(patch: Patch)
    | Replace(target: Json)
    | Checkpoint(name: string)
    | Rollback(name: string)
    | Delete(name: string)

  predicate Accepted(tools: Tools, w: World, c: Command) {
    match c
    case ApplyPatch(patch) => Verdict(tools, w.db, patch).Done?
    case Replace(target) => ReplaceVerdict(tools, w.db, target).Done?
    case Checkpoint(_) => true
    case Rollback(name) => FileName(name) in w.files && ReplaceVerdict(tools, w.db, w.files[FileName(name)]).Done?
    case Delete(name) => FileName(name) in w.files
  }

  /** What a command leaves. A command that raises leaves everything as it was, unless it is the comparison at
      the end of a patch that fails.
   */
  function After(tools: Tools, w: World, c: Command): World {
    match c
    case ApplyPatch(patch) => w.(db := Patched(tools, w.db, patch))
    case Replace(target) => w.(db := Replaced(tools, w.db, target))
    case Checkpoint(name) => w.(files := w.files[FileName(name) := w.db])
    case Rollback(name) =>
      if FileName(name) in w.files then w.(db := Replaced(tools, w.db, w.files[FileName(name)])) else w
    case Delete(name) => w.(files := w.files - {FileName(name)})
  }

  function RunAll(tools: Tools, w: World, commands: seq<Command>): World
    decreases |commands|
  {
    if commands == [] then w
    else After(tools, RunAll(tools, w, commands[..|commands| - 1]), commands[|commands| - 1])
  }

  /** Config DB and every saved checkpoint are documents that the store can hold. */
  predicate AllConfigs(w: World) {
    IsConfig(w.db) && forall f | f in w.files :: IsConfig(w.files[f])
  }

  lemma {:induction false} RunKeepsConfigs(tools: Tools, w: World, commands: seq<Command>)
    requires SorterSound(tools) && MakePatchSound(tools) && AllConfigs(w)
    ensures AllConfigs(RunAll(tools, w, commands))
    decreases |commands|
  {
    if commands != [] {
      RunKeepsConfigs(tools, w, commands[..|commands| - 1]);
      var v, c := RunAll(tools, w, commands[..|commands| - 1]), commands[|commands| - 1];
      match c {
        case ApplyPatch(patch) => PatchedIsConfig(tools, v.db, patch);
        case Replace(target) => PatchedIsConfig(tools, v.db, tools.makePatch(v.db, target));
        case Rollback(name) =>
          if FileName(name) in v.files { PatchedIsConfig(tools, v.db, tools.makePatch(v.db, v.files[FileName(name)])); }
        case _ =>
      }
    }
  }

  /** The checkpoint taken at step i still stands at the end. */
  predicate LatestLive(commands: seq<Command>, i: nat, name: string) {
    && i < |commands| && commands[i] == Checkpoint(name)
    && forall j | i < j < |commands| :: commands[j] != Checkpoint(name) && commands[j] != Delete(name)
  }

  lemma {:induction false} CheckpointStands(tools: Tools, w: World, commands: seq<Command>, i: nat, name: string)
    requires LatestLive(commands, i, name)
    ensures Lookup(RunAll(tools, w, commands).files, FileName(name)) == Some(RunAll(tools, w, commands[..i]).db)
    decreases |commands|
  {
    var shorter, last := commands[..|commands| - 1], commands[|commands| - 1];
    if i < |commands| - 1 {
      assert shorter[..i] == commands[..i];
      assert LatestLive(shorter, i, name);
      CheckpointStands(tools, w, shorter, i, name);
      if last.Checkpoint? || last.Delete? { FileNameInjective(last.name, name); }
    } else {
      assert shorter == commands[..i];
    }
  }

  /** In every run, rolling back restores exactly the config that the latest live checkpoint of
      that name saved, or changes nothing; it is never refused because of empty tables.
   */
  lemma RollbackRestores(tools: Tools, w: World, commands: seq<Command>, i: nat, name: string)
    requires SorterSound(tools) && MakePatchSound(tools) && AllConfigs(w) && LatestLive(commands, i, name)
    ensures
      var v, saved := RunAll(tools, w, commands), RunAll(tools, w, commands[..i]).db;
      var verdict := Verdict(tools, v.db, tools.makePatch(v.db, saved));
      && ReplaceVerdict(tools, v.db, saved) == verdict
      && Accepted(tools, v, Rollback(name)) == verdict.Done?
      && After(tools, v, Rollback(name)) == (if verdict.Done? then v.(db := saved) else v)
      && (verdict.Done? || verdict.NotPermitted? || verdict.InvalidTarget? || verdict.NotSortable?)
  {
    CheckpointStands(tools, w, commands, i, name);
    RunKeepsConfigs(tools, w, commands[..i]);
    var saved := RunAll(tools, w, commands[..i]).db;
    NoEmptyTables(saved);
    KeptIsConfig(saved);
  }

  lemma NoEmptyTables(config: Json)
    requires IsConfig(config)
    ensures !HasEmptyTable(config) && Prune(config) == config
  {
    forall t | t in config.m ensures Truthy(config.m[t]) { TableOfConfig(config, t); }
    assert Prune(config).m == config.m;
  }

  /** A name without a live checkpoint has no file. */
  lemma {:induction false} MissingNameHasNoFile(tools: Tools, w: World, commands: seq<Command>, name: string)
    requires FileName(name) !in w.files
    requires forall i: nat :: !LatestLive(commands, i, name)
    ensures FileName(name) !in RunAll(tools, w, commands).files
    decreases |commands|
  {
    if commands != [] {
      var n := |commands| - 1;
      var shorter, last := commands[..n], commands[n];
      assert !LatestLive(commands, n, name);
      if last != Delete(name) {
        forall i: nat ensures !LatestLive(shorter, i, name) {
          if LatestLive(shorter, i, name) { assert LatestLive(commands, i, name); }
        }
        MissingNameHasNoFile(tools, w, shorter, name);
        if last.Checkpoint? { FileNameInjective(last.name, name); }
      }
    }
  }

  /** A name without a live checkpoint changes nothing, on rollback as on delete. */
  lemma MissingNameChangesNothing(tools: Tools, w: World, commands: seq<Command>, name: string)
    requires FileName(name) !in w.files
    requires forall i: nat :: !LatestLive(commands, i, name)
    ensures var v := RunAll(tools, w, commands); After(tools, v, Rollback(name)) == v == After(tools, v, Delete(name))
  {
    MissingNameHasNoFile(tools, w, commands, name);
    var v := RunAll(tools, w, commands);
    assert v.files - {FileName(name)} == v.files;
  }
}
