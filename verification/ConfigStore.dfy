/** The Config DB connector's contract, on JSON documents: set_entry replaces an entry,
    mod_entry merges fields into it, mod_config applies mod_entry to a whole document.
 */
module ConfigStore {
  import opened JsonTree

  /** What the store keeps for a field value: null is written as text, an empty list as one empty string. */
  function Stored(v: Json): Json {
    match v
    case Null => Str("None")
    case Arr(items) => if items == [] then Arr([""]) else v
    case _ => v
  }

  /** The payloads mod_config accepts: null deletes at table and at key level. */
  predicate Payload(p: Json, level: nat)
    decreases p
  {
    match p
    case Null => level > 0
    case Str(_) => level >= 3
    case Arr(_) => level >= 3
    case Obj(m) => level < 3 && forall k | k in m :: Payload(m[k], level + 1)
  }

  /** What is left at a place that held `base` after writing payload `p` there. */
  function Write(base: Option<Json>, p: Json, level: nat): Option<Json>
    decreases p, 1
  {
    match p
    case Null => if level >= 3 then Some(Stored(p)) else None
    case Str(_) => Some(Stored(p))
    case Arr(_) => Some(Stored(p))
    case Obj(m) =>
      var kept := Merge(base, p, level);
      if level == 1 && kept == map[] then None else Some(Obj(kept))
  }

  /** The children left after writing the object `p` over `base`. */
  function Merge(base: Option<Json>, p: Json, level: nat): map<string, Json>
    requires p.Obj?
    decreases p, 0
  {
    var prior := if base.Some? then Kids(base.value) else map[];
    map k | k in prior.Keys + p.m.Keys && (k in p.m ==> Write(Get(base, k), p.m[k], level + 1).Some?)
      :: if k in p.m then Write(Get(base, k), p.m[k], level + 1).value else prior[k]
  }

  lemma MergeAt(base: Option<Json>, p: Json, level: nat, k: string)
    requires p.Obj?
    ensures Lookup(Merge(base, p, level), k)
         == if k in p.m then Write(Get(base, k), p.m[k], level + 1) else Get(base, k)
  {
  }

  /** An object with no keys writes nothing. */
  lemma MergeNothing(base: Json, level: nat)
    requires base.Obj?
    ensures Merge(Some(base), Obj(map[]), level) == base.m
  {
  }

  /** Config DB after mod_config(p). */
  function Modified(db: Json, p: Json): Json {
    var r := Write(Some(db), p, 0);
    if r.Some? then r.value else Obj(map[])
  }

  /** What mod_config makes of null: a table goes, an entry goes, and with the last entry its table, but a field is
      written as the text None. An empty list is written as the list of one empty string.
   */
  lemma NullMeans(db: Json, t: string, k: string, f: string)
    requires db.Obj?
    ensures Modified(db, Obj(map[t := Null])) == Obj(db.m - {t})
    ensures Modified(db, Obj(map[t := Obj(map[k := Null])])) ==
      var rest := Kids(if t in db.m then db.m[t] else Null) - {k};
      if rest == map[] then Obj(db.m - {t}) else Obj(db.m[t := Obj(rest)])
    ensures Get(Get(Get(Some(Modified(db, Obj(map[t := Obj(map[k := Obj(map[f := Null])])]))), t), k), f)
         == Some(Str("None"))
    ensures Get(Get(Get(Some(Modified(db, Obj(map[t := Obj(map[k := Obj(map[f := Arr([])])])]))), t), k), f)
         == Some(Arr([""]))
  {
    var rest := Kids(if t in db.m then db.m[t] else Null) - {k};
    assert Merge(Some(db), Obj(map[t := Null]), 0) == db.m - {t};
    assert Merge(Get(Some(db), t), Obj(map[k := Null]), 1) == rest;
    assert Merge(Some(db), Obj(map[t := Obj(map[k := Null])]), 0)
      == if rest == map[] then db.m - {t} else db.m[t := Obj(rest)];
    FieldWritten(db, t, k, f, Null);
    FieldWritten(db, t, k, f, Arr([]));
  }

  /** A field that is written holds the value as the store keeps it. */
  lemma FieldWritten(db: Json, t: string, k: string, f: string, v: Json)
    requires db.Obj? && !v.Obj?
    ensures Get(Get(Get(Some(Modified(db, Obj(map[t := Obj(map[k := Obj(map[f := v])])]))), t), k), f)
         == Some(Stored(v))
  {
    var field, entry := Obj(map[f := v]), Obj(map[k := Obj(map[f := v])]);
    var table := Get(Some(db), t);
    MergeAt(Some(db), Obj(map[t := entry]), 0, t);
    MergeAt(table, entry, 1, k);
    MergeAt(Get(table, k), field, 2, f);
    assert Merge(table, entry, 1) != map[];
  }

  // ---------- Single entries ----------

  /** get_table: a table that does not exist has no keys. */
  function Table(db: Json, t: string): map<string, Json> {
    if Get(Some(db), t).Some? then Kids(Get(Some(db), t).value) else map[]
  }

  /** get_entry, None when there is no such key. */
  function EntryOf(db: Json, t: string, k: string): Option<Json> {
    Lookup(Table(db, t), k)
  }

  /** A document as the store can hold it. */
  predicate IsConfig(j: Json) {
    Shape(j, 0) && NoEmptyList(j)
  }

  /** set_entry: replaces the entry; None deletes it, and the table with its last key. */
  function SetEntry(db: Json, t: string, k: string, entry: Option<Json>): Json
    requires db.Obj?
  {
    if entry.Some? then Obj(db.m[t := Obj(Table(db, t)[k := entry.value])])
    else
      var rest := Table(db, t) - {k};
      Obj(if rest == map[] then db.m - {t} else db.m[t := Obj(rest)])
  }

  /** mod_entry: merges the fields into the entry. */
  function ModEntry(db: Json, t: string, k: string, fields: map<string, Json>): Json
    requires db.Obj?
  {
    var entry := EntryOf(db, t, k);
    SetEntry(db, t, k, Some(Obj((if entry.Some? then Kids(entry.value) else map[]) + fields)))
  }

  /** delete_table */
  function DeleteTable(db: Json, t: string): Json
    requires db.Obj?
  {
    Obj(db.m - {t})
  }

  predicate IsEntry(e: Json) {
    Shape(e, 2) && NoEmptyList(e)
  }

  /** An entry as the store keeps it */
  function KeptEntry(e: Json): Json {
    if e.Obj? then Obj(map f | f in e.m :: Stored(e.m[f])) else e
  }

  function KeptTable(t: Json): Json {
    if t.Obj? then Obj(map k | k in t.m :: KeptEntry(t.m[k])) else t
  }

  /** A document as the store keeps it: the same, but for lists that are empty. */
  function Kept(c: Json): Json {
    if c.Obj? then Obj(map t | t in c.m :: KeptTable(c.m[t])) else c
  }

  function KeptIfAny(entry: Option<Json>): Option<Json> {
    if entry.None? then None else Some(KeptEntry(entry.value))
  }

  lemma KeptIsEntry(e: Json)
    requires Shape(e, 2)
    ensures IsEntry(KeptEntry(e)) && (NoEmptyList(e) <==> KeptEntry(e) == e)
  {
    var kept := KeptEntry(e);
    forall f | f in e.m
      ensures Shape(kept.m[f], 3) && NoEmptyList(kept.m[f]) && (NoEmptyList(e.m[f]) <==> kept.m[f] == e.m[f])
    {
    }
    if NoEmptyList(e) {
      assert kept.m == e.m;
    }
  }

  lemma KeptIsTable(t: Json)
    requires Shape(t, 1)
    ensures Shape(KeptTable(t), 1) && NoEmptyList(KeptTable(t)) && (NoEmptyList(t) <==> KeptTable(t) == t)
  {
    var kept := KeptTable(t);
    forall k | k in t.m
      ensures Shape(kept.m[k], 2) && NoEmptyList(kept.m[k]) && (NoEmptyList(t.m[k]) <==> kept.m[k] == t.m[k])
    {
      KeptIsEntry(t.m[k]);
    }
    assert kept.m.Keys == t.m.Keys;
    if NoEmptyList(t) {
      assert kept.m == t.m;
    }
  }

  /** What the store keeps is a config, and the very document if and only if that is one. */
  lemma KeptIsConfig(c: Json)
    requires Shape(c, 0)
    ensures IsConfig(Kept(c)) && (IsConfig(c) <==> Kept(c) == c)
  {
    var kept := Kept(c);
    forall t | t in c.m
      ensures Shape(kept.m[t], 1) && NoEmptyList(kept.m[t]) && (NoEmptyList(c.m[t]) <==> kept.m[t] == c.m[t])
    {
      KeptIsTable(c.m[t]);
    }
    if NoEmptyList(c) {
      assert kept.m == c.m;
    }
  }

  lemma KeptAt(c: Json, t: string, k: string)
    requires Shape(c, 0)
    ensures EntryOf(Kept(c), t, k) == KeptIfAny(EntryOf(c, t, k))
  {
    if t in c.m {
      assert Shape(c.m[t], 1);
    }
  }

  lemma SetEntryAt(db: Json, t: string, k: string, entry: Option<Json>, t': string, k': string)
    requires db.Obj?
    ensures EntryOf(SetEntry(db, t, k, entry), t', k') == if t' == t && k' == k then entry else EntryOf(db, t', k')
  {
    if entry.None? && t' == t {
      var rest := Table(db, t) - {k};
      assert k' in rest <==> k' != k && k' in Table(db, t);
    }
  }

  lemma TableOfShape(db: Json, t: string)
    requires Shape(db, 0)
    ensures t in db.m <==> Table(db, t) != map[]
    ensures t in db.m ==> db.m[t] == Obj(Table(db, t)) && Shape(db.m[t], 1)
    ensures forall k | k in Table(db, t) :: Shape(Table(db, t)[k], 2)
  {
    if t in db.m {
      assert Shape(db.m[t], 0 + 1);
      assert forall k | k in db.m[t].m :: Shape(db.m[t].m[k], 1 + 1);
    }
  }

  lemma TableOfConfig(db: Json, t: string)
    requires IsConfig(db)
    ensures t in db.m <==> Table(db, t) != map[]
    ensures t in db.m ==> db.m[t] == Obj(Table(db, t)) && Shape(db.m[t], 1) && NoEmptyList(db.m[t])
    ensures forall k | k in Table(db, t) :: IsEntry(Table(db, t)[k])
  {
    if t in db.m {
      assert Shape(db.m[t], 0 + 1);
      assert forall k | k in db.m[t].m :: Shape(db.m[t].m[k], 1 + 1);
    }
  }

  lemma SetEntryIsConfig(db: Json, t: string, k: string, entry: Option<Json>)
    requires IsConfig(db) && (entry.Some? ==> IsEntry(entry.value))
    ensures IsConfig(SetEntry(db, t, k, entry))
  {
    var after := SetEntry(db, t, k, entry);
    forall u | u in after.m ensures Shape(after.m[u], 1) && NoEmptyList(after.m[u]) {
      TableOfConfig(db, u);
      TableOfConfig(db, t);
      if u == t {
        var table := if entry.Some? then Table(db, t)[k := entry.value] else Table(db, t) - {k};
        assert forall k' | k' in table :: Shape(table[k'], 2) && NoEmptyList(table[k']);
        assert after.m[u] == Obj(table);
        assert entry.Some? ==> k in table;
      }
    }
  }

  /** Two configs with the same entries are the same: there are no empty tables to tell them apart. */
  lemma SameEntries(a: Json, b: Json)
    requires IsConfig(a) && IsConfig(b)
    requires forall t, k :: EntryOf(a, t, k) == EntryOf(b, t, k)
    ensures a == b
  {
    forall t: string ensures Lookup(a.m, t) == Lookup(b.m, t) {
      forall k: string ensures Lookup(Table(a, t), k) == Lookup(Table(b, t), k) {
        assert EntryOf(a, t, k) == EntryOf(b, t, k);
      }
      SameLookups(Table(a, t), Table(b, t));
      TableOfConfig(a, t);
      TableOfConfig(b, t);
    }
    SameLookups(a.m, b.m);
  }
}
