/** The match engine of the dump utility, and the optimizer in front of it that remembers keys. */
module KeyCache {
  import opened JsonTree
  import opened Columns

  // ---------- Requests and replies ----------

  type Fields = map<string, string>

  /** One data source, one database and one namespace: its entries by key, what the lookup of a
      missing field gives, and the keys that match a table and a pattern.
   */
  datatype Source = Source(
    data: map<string, Fields>,
    separator: string,
    missing: Option<string>,
    keysOf: (string, string) -> seq<string>)

  /** Only entries match, and whole entries are asked for without naming fields. */
  ghost predicate Faithful(src: Source) {
    forall table, pattern, k | k in src.keysOf(table, pattern) :: k in src.data
  }

  datatype Filter = Filter(field: string, value: string, entireList: bool)

  datatype Request = Request(
    table: string,
    pattern: string,
    filter: Option<Filter>,
    returnFields: seq<string>,
    justKeys: bool)

  /** __static_checks: whole entries come without return fields. */
  predicate WellFormed(r: Request) {
    r.justKeys || r.returnFields == []
  }

  function Key(src: Source, r: Request): string {
    r.table + src.separator + r.pattern
  }

  /** The pattern has no wildcard: it matches the key that it spells, if there is such an entry. */
  predicate Absolute(src: Source, r: Request) {
    var key := r.table + src.separator + r.pattern;
    r.pattern != "" && src.keysOf(r.table, r.pattern) == if key in src.data then [key] else []
  }

  /** An item of "keys": a key, a key with its entry, or an entry alone */
  datatype Item = Name(key: string) | Whole(key: string, entry: Fields) | Bare(entry: Fields)

  datatype Error = NoKey | NoMatches | NoEntries

  type Values = map<string, map<string, Option<string>>>

  datatype Reply = Reply(error: Option<Error>, keys: seq<Item>, returnValues: Values)

  /** Raised stands for a KeyError. */
  datatype Outcome = Raised | Replied(reply: Reply)

  function Failure(e: Error): Reply {
    Reply(Some(e), [], map[])
  }

  // ---------- The engine ----------

  function Hget(src: Source, key: string, field: string): Option<string> {
    if key in src.data && field in src.data[key] then Some(src.data[key][field]) else src.missing
  }

  function EntryAt(src: Source, key: string): Fields {
    if key in src.data then src.data[key] else map[]
  }

  predicate Passes(src: Source, filter: Option<Filter>, key: string) {
    if filter.None? then true
    else
      var found := Hget(src, key, filter.value.field);
      if found.None? || found.value == "" then false
      else if ',' in found.value && !filter.value.entireList then filter.value.value in Split(found.value)
      else filter.value.value == found.value
  }

  function Filtered(src: Source, filter: Option<Filter>, keys: seq<string>): seq<string> {
    if keys == [] then []
    else
      var front := Filtered(src, filter, keys[..|keys| - 1]);
      if Passes(src, filter, keys[|keys| - 1]) then front + [keys[|keys| - 1]] else front
  }

  function ItemFor(src: Source, justKeys: bool, key: string): Item {
    if justKeys then Name(key) else Whole(key, EntryAt(src, key))
  }

  function Items(src: Source, justKeys: bool, keys: seq<string>): (items: seq<Item>)
    ensures |items| == |keys|
  {
    seq(|keys|, i requires 0 <= i < |keys| => ItemFor(src, justKeys, keys[i]))
  }

  function FieldValues(src: Source, key: string, fields: seq<string>): map<string, Option<string>> {
    map f | f in fields :: Hget(src, key, f)
  }

  function ValuesFor(src: Source, r: Request, keys: seq<string>): Values {
    if r.justKeys && r.returnFields != [] then map k | k in keys :: FieldValues(src, k, r.returnFields) else map[]
  }

  /** MatchEngine.fetch */
  function EngineFetch(src: Source, r: Request): Reply {
    if r.pattern == "" then Failure(NoKey)
    else
      var matched := src.keysOf(r.table, r.pattern);
      var keys := Filtered(src, r.filter, matched);
      if matched == [] then Failure(NoMatches)
      else if keys == [] then Failure(NoEntries)
      else Reply(None, Items(src, r.justKeys, keys), ValuesFor(src, r, keys))
  }

  /** A filter compares the whole text, or, if the text is a comma list and the list need not be whole, each of its
      items; an empty or missing text never passes.
   */
  lemma PassesIff(src: Source, f: Filter, key: string, items: seq<string>)
    requires key in src.data && f.field in src.data[key] && items != [] && NoCommas(items)
    requires src.data[key][f.field] == Join(items)
    ensures Passes(src, Some(f), key) <==>
      if |items| == 1 then f.value == items[0] && items[0] != ""
      else if f.entireList then f.value == Join(items)
      else f.value in items
  {
    SplitJoin(items);
    if |items| == 1 {
      assert Join(items) == items[0] && items[0] in items;
    } else {
      JoinHasComma(items);
    }
  }

  lemma JoinHasComma(items: seq<string>)
    requires |items| > 1
    ensures ',' in Join(items)
  {
    JoinAppend(items[..1], items[1..]);
    assert items == items[..1] + items[1..];
  }

  lemma MissingNeverPasses(src: Source, f: Filter, key: string)
    requires key !in src.data || f.field !in src.data[key]
    requires src.missing.None? || src.missing == Some("")
    ensures !Passes(src, Some(f), key) && Passes(src, None, key)
  {
  }

  /** The filter can be applied to parts of the keys one by one, and each key stays or goes by itself. */
  lemma {:induction false} FilteredIs(src: Source, filter: Option<Filter>, a: seq<string>, b: seq<string>)
    ensures Filtered(src, filter, a + b) == Filtered(src, filter, a) + Filtered(src, filter, b)
    decreases |b|
  {
    if b == [] {
      assert a + b == a;
      assert Filtered(src, filter, a) + [] == Filtered(src, filter, a);
    } else {
      var front, last := b[..|b| - 1], b[|b| - 1];
      FilteredIs(src, filter, a, front);
      assert (a + b)[..|a + b| - 1] == a + front && (a + b)[|a + b| - 1] == last;
      assert Filtered(src, filter, a) + (Filtered(src, filter, front) + [last])
        == Filtered(src, filter, a) + Filtered(src, filter, front) + [last];
    }
  }

  lemma FilteredOne(src: Source, filter: Option<Filter>, key: string)
    ensures Filtered(src, filter, [key]) == if Passes(src, filter, key) then [key] else []
  {
    assert [key][..0] == [] && Filtered(src, filter, [key][..0]) == [];
  }

  /** A request that is answered gets each key that matches and passes, alone or with its entry, and each field that
      is asked for with its value, or with what the source gives for a missing one.
   */
  lemma AnswerIs(src: Source, r: Request)
    requires Faithful(src) && WellFormed(r) && EngineFetch(src, r).error.None?
    ensures
      var keys := Filtered(src, r.filter, src.keysOf(r.table, r.pattern));
      var reply := EngineFetch(src, r);
      && r.pattern != "" && keys != [] && |reply.keys| == |keys|
      && (forall i | 0 <= i < |keys| :: keys[i] in src.data
            && reply.keys[i] == if r.justKeys then Name(keys[i]) else Whole(keys[i], src.data[keys[i]]))
      && (forall k, f | k in keys && f in r.returnFields ::
            && k in reply.returnValues && f in reply.returnValues[k]
            && reply.returnValues[k][f] == if f in src.data[k] then Some(src.data[k][f]) else src.missing)
      && (forall k | k in reply.returnValues :: k in keys && reply.returnValues[k].Keys == set f | f in r.returnFields)
  {
    var matched := src.keysOf(r.table, r.pattern);
    var keys := Filtered(src, r.filter, matched);
    FilteredAmong(src, r.filter, matched);
  }

  class MatchEngine {
    const src: Source

    constructor (src: Source)
      ensures this.src == src
    {
      this.src := src;
    }

    /** __filter_out_keys */
    method FilterOutKeys(r: Request, matched: seq<string>) returns (keys: seq<string>)
      ensures keys == Filtered(src, r.filter, matched)
    {
      if r.filter.None? {
        NoFilter(src, matched);
        return matched;
      }
      keys := [];
      for i := 0 to |matched|
        invariant keys == Filtered(src, r.filter, matched[..i])
      {
        assert matched[..i + 1][..i] == matched[..i];
        var found := Hget(src, matched[i], r.filter.value.field);
        if found.Some? && found.value != "" {
          var values := [found.value];
          if ',' in found.value && !r.filter.value.entireList {
            values := Split(found.value);
          }
          if r.filter.value.value in values {
            keys := keys + [matched[i]];
          }
        }
      }
      assert matched[..|matched|] == matched;
    }

    /** __fill_template */
    method FillTemplate(r: Request, keys: seq<string>) returns (reply: Reply)
      ensures reply == Reply(None, Items(src, r.justKeys, keys), ValuesFor(src, r, keys))
    {
      var items: seq<Item> := [];
      var values: Values := map[];
      for i := 0 to |keys|
        invariant items == Items(src, r.justKeys, keys[..i])
        invariant values == ValuesFor(src, r, keys[..i])
      {
        assert keys[..i + 1] == keys[..i] + [keys[i]];
        if !r.justKeys {
          items := items + [Whole(keys[i], EntryAt(src, keys[i]))];
        } else {
          items := items + [Name(keys[i])];
          if |r.returnFields| > 0 {
            values := values[keys[i] := FieldValues(src, keys[i], r.returnFields)];
          }
        }
      }
      assert keys[..|keys|] == keys;
      reply := Reply(None, items, values);
    }

    method Fetch(r: Request) returns (reply: Reply)
      ensures reply == EngineFetch(src, r)
    {
      if r.pattern == "" {
        return Failure(NoKey);
      }
      var matched := src.keysOf(r.table, r.pattern);
      if matched == [] {
        return Failure(NoMatches);
      }
      var keys := FilterOutKeys(r, matched);
      if keys == [] {
        return Failure(NoEntries);
      }
      reply := FillTemplate(r, keys);
    }
  }

  lemma {:induction false} NoFilter(src: Source, keys: seq<string>)
    ensures Filtered(src, None, keys) == keys
  {
    if keys != [] {
      NoFilter(src, keys[..|keys| - 1]);
    }
  }

  lemma {:induction false} FilteredAmong(src: Source, filter: Option<Filter>, keys: seq<string>)
    ensures forall k :: k in Filtered(src, filter, keys) <==> k in keys && Passes(src, filter, k)
  {
    if keys != [] {
      FilteredAmong(src, filter, keys[..|keys| - 1]);
      assert keys == keys[..|keys| - 1] + [keys[|keys| - 1]];
    }
  }

  // ---------- The optimizer ----------

  /** What the cache holds is what the source holds. */
  predicate Agrees(cache: map<string, Fields>, src: Source) {
    forall k | k in cache :: k in src.data && cache[k] == src.data[k]
  }

  predicate HasAll(entry: Fields, fields: seq<string>) {
    forall f | f in fields :: f in entry
  }

  /** The request that a miss sends to the engine, which asks for whole entries */
  function Mutated(r: Request): Request {
    r.(justKeys := false, returnFields := [])
  }

  function FromCache(entry: Fields, key: string, r: Request): Outcome {
    if !r.justKeys then Replied(Reply(None, [Bare(entry)], map[]))
    else if r.returnFields == [] then Replied(Reply(None, [Name(key)], map[]))
    else if !HasAll(entry, r.returnFields) then Raised
    else Replied(Reply(None, [Name(key)], map[key := map f | f in r.returnFields :: Some(entry[f])]))
  }

  function Requested(entry: Fields, fields: seq<string>): map<string, Option<string>> {
    map f | f in fields :: Some(if f in entry then entry[f] else "")
  }

  /** __mutate_response */
  function Trimmed(src: Source, keys: seq<string>, fields: seq<string>): Reply {
    Reply(None, Items(src, true, keys), map k | k in keys :: Requested(EntryAt(src, k), fields))
  }

  /** The reply of the optimizer in front of the engine */
  function OptimizerFetch(cache: map<string, Fields>, src: Source, r: Request): Outcome {
    if Key(src, r) in cache then FromCache(cache[Key(src, r)], Key(src, r), r)
    else
      var ret := EngineFetch(src, Mutated(r));
      if ret.error.Some? || !r.justKeys then Replied(ret)
      else Replied(Trimmed(src, Filtered(src, r.filter, src.keysOf(r.table, r.pattern)), r.returnFields))
  }

  class MatchRequestOptimizer {
    const engine: MatchEngine
    var cache: map<string, Fields>

    constructor (engine: MatchEngine)
      ensures this.engine == engine && cache == map[]
    {
      this.engine := engine;
      cache := map[];
    }

    predicate Sound()
      reads this
    {
      Agrees(cache, engine.src)
    }

    /** __fetch_from_cache */
    method FetchFromCache(key: string, r: Request) returns (outcome: Outcome)
      requires key in cache
      ensures outcome == FromCache(cache[key], key, r)
    {
      if !r.justKeys {
        return Replied(Reply(None, [Bare(cache[key])], map[]));
      }
      var values: Values := map[];
      if r.returnFields != [] {
        var row: map<string, Option<string>> := map[];
        for i := 0 to |r.returnFields|
          invariant HasAll(cache[key], r.returnFields[..i])
          invariant row == map f | f in r.returnFields[..i] :: Some(cache[key][f])
        {
          var field := r.returnFields[i];
          assert r.returnFields[..i + 1] == r.returnFields[..i] + [field];
          if field !in cache[key] {
            return Raised;
          }
          row := row[field := Some(cache[key][field])];
        }
        assert r.returnFields[..|r.returnFields|] == r.returnFields;
        values := map[key := row];
      }
      outcome := Replied(Reply(None, [Name(key)], values));
    }

    /** __fill_cache */
    method FillCache(keys: seq<Item>)
      requires forall i | 0 <= i < |keys| :: keys[i].Whole?
      modifies this`cache
      ensures forall k | k in old(cache) :: k in cache
      ensures forall k | k in cache :: (k in old(cache) && cache[k] == old(cache)[k]) || Whole(k, cache[k]) in keys
      ensures forall i | 0 <= i < |keys| :: keys[i].key in cache
    {
      for i := 0 to |keys|
        invariant forall k | k in old(cache) :: k in cache
        invariant forall k | k in cache :: (k in old(cache) && cache[k] == old(cache)[k]) || Whole(k, cache[k]) in keys
        invariant forall j | 0 <= j < i :: keys[j].key in cache
      {
        assert keys[i] == Whole(keys[i].key, keys[i].entry) && keys[i] in keys;
        cache := cache[keys[i].key := keys[i].entry];
      }
    }

    /** The fields that were asked for, "" for one that is not there */
    method RequestedFields(entry: Fields, fields: seq<string>) returns (row: map<string, Option<string>>)
      ensures row == Requested(entry, fields)
    {
      row := map[];
      for j := 0 to |fields|
        invariant row == Requested(entry, fields[..j])
      {
        assert fields[..j + 1] == fields[..j] + [fields[j]];
        row := row[fields[j] := Some(if fields[j] in entry then entry[fields[j]] else "")];
      }
      assert fields[..|fields|] == fields;
    }

    /** __mutate_response for a request that asked for keys */
    method MutateResponse(r: Request, ghost found: seq<string>, keys: seq<Item>) returns (reply: Reply)
      requires keys == Items(engine.src, false, found)
      ensures reply == Trimmed(engine.src, found, r.returnFields)
    {
      var names: seq<Item> := [];
      var values: Values := map[];
      for i := 0 to |keys|
        invariant names == Items(engine.src, true, found[..i])
        invariant values == Trimmed(engine.src, found[..i], r.returnFields).returnValues
      {
        assert found[..i + 1] == found[..i] + [found[i]];
        var item := keys[i];
        assert item == Whole(found[i], EntryAt(engine.src, found[i]));
        names := names + [Name(item.key)];
        var row := RequestedFields(item.entry, r.returnFields);
        values := values[item.key := row];
      }
      assert found[..|keys|] == found;
      reply := Reply(None, names, values);
    }

    method Fetch(r: Request) returns (outcome: Outcome)
      requires Sound() && Faithful(engine.src) && WellFormed(r)
      modifies this`cache
      ensures outcome == OptimizerFetch(old(cache), engine.src, r)
      ensures Sound() && forall k | k in old(cache) :: k in cache
      ensures Absolute(engine.src, r) && r.filter.None? && Key(engine.src, r) in engine.src.data ==>
        Key(engine.src, r) in cache
    {
      var key := Key(engine.src, r);
      if key in cache {
        outcome := FetchFromCache(key, r);
        return;
      }
      var ret := engine.Fetch(Mutated(r));
      if ret.error.Some? {
        NoFilter(engine.src, engine.src.keysOf(r.table, r.pattern));
        return Replied(ret);
      }
      ghost var matched := engine.src.keysOf(r.table, r.pattern);
      ghost var found := Filtered(engine.src, r.filter, matched);
      FilteredAmong(engine.src, r.filter, matched);
      assert forall i | 0 <= i < |found| :: found[i] in found;
      FillCache(ret.keys);
      if Absolute(engine.src, r) && r.filter.None? && key in engine.src.data {
        NoFilter(engine.src, matched);
        assert found[0] == key && ret.keys[0].key == key;
      }
      if !r.justKeys {
        outcome := Replied(ret);
      } else {
        var reply := MutateResponse(r, found, ret.keys);
        outcome := Replied(reply);
      }
    }
  }

  // ---------- When the optimizer and the engine agree ----------

  /** The value that a reply gives for a field of a key; None if it gives none. */
  function ValueAt(reply: Reply, key: string, field: string): Option<Option<string>> {
    if key in reply.returnValues && field in reply.returnValues[key] then Some(reply.returnValues[key][field]) else None
  }

  /** The same error, keys and values; an empty row of values is as good as none. */
  ghost predicate Same(a: Reply, b: Reply) {
    a.error == b.error && a.keys == b.keys && forall k, f :: ValueAt(a, k, f) == ValueAt(b, k, f)
  }

  ghost predicate SameOutcome(o: Outcome, reply: Reply) {
    o.Replied? && Same(o.reply, reply)
  }

  /** What the engine says to a request for one key */
  lemma EngineOnAbsolute(src: Source, r: Request)
    requires Absolute(src, r)
    ensures var key := Key(src, r);
      EngineFetch(src, r) ==
        if key !in src.data then Failure(NoMatches)
        else if !Passes(src, r.filter, key) then Failure(NoEntries)
        else Reply(None, Items(src, r.justKeys, [key]), ValuesFor(src, r, [key]))
  {
    var key := Key(src, r);
    assert Filtered(src, r.filter, [key][..0]) == [];
  }

  lemma RowValues(key: string, row: map<string, Option<string>>, field: string)
    ensures ValueAt(Reply(None, [Name(key)], map[key := row]), key, field) == if field in row then Some(row[field])
      else None
  {
  }

  /** A hit answers like the engine exactly if the request asks for keys, its filter lets the key
      through, and the entry has every field that is asked for.
   */
  lemma HitAgreesIff(cache: map<string, Fields>, src: Source, r: Request)
    requires Agrees(cache, src) && Absolute(src, r) && WellFormed(r) && Key(src, r) in cache
    ensures SameOutcome(OptimizerFetch(cache, src, r), EngineFetch(src, r)) <==>
      r.justKeys && Passes(src, r.filter, Key(src, r)) && HasAll(src.data[Key(src, r)], r.returnFields)
  {
    EngineOnAbsolute(src, r);
    var key := Key(src, r);
    var o, e := OptimizerFetch(cache, src, r), EngineFetch(src, r);
    assert [key][0] == key;
    if !r.justKeys {
      assert o.reply.keys == [Bare(cache[key])];
      assert e.keys != [] ==> e.keys[0] == Whole(key, EntryAt(src, key));
    } else if Passes(src, r.filter, key) && HasAll(src.data[key], r.returnFields) {
      assert e.keys == [Name(key)];
      assert ValuesFor(src, r, [key]) == if r.returnFields == [] then map[]
        else map[key := FieldValues(src, key, r.returnFields)];
      assert FieldValues(src, key, r.returnFields) == map f | f in r.returnFields :: Some(cache[key][f]);
    }
  }

  /** A miss answers like the engine exactly if the request asks for whole entries, there is no such entry, the
      filter rejects it, it has all the fields that are asked for, or the source too gives "" for the others.
   */
  lemma MissAgreesIff(cache: map<string, Fields>, src: Source, r: Request)
    requires Absolute(src, r) && WellFormed(r) && Key(src, r) !in cache
    ensures SameOutcome(OptimizerFetch(cache, src, r), EngineFetch(src, r)) <==>
      || !r.justKeys || Key(src, r) !in src.data || !Passes(src, r.filter, Key(src, r))
      || src.missing == Some("") || HasAll(src.data[Key(src, r)], r.returnFields)
  {
    EngineOnAbsolute(src, r);
    EngineOnAbsolute(src, Mutated(r));
    var key := Key(src, r);
    if r.justKeys && EngineFetch(src, r).error.None? {
      assert Filtered(src, r.filter, [key][..0]) == [];
      assert Filtered(src, r.filter, src.keysOf(r.table, r.pattern)) == [key];
      MissOnEntry(src, r);
    } else if !r.justKeys {
      assert Mutated(r) == r;
    }
  }

  lemma MissOnEntry(src: Source, r: Request)
    requires r.justKeys && Key(src, r) in src.data
    ensures var key := Key(src, r);
      Same(Trimmed(src, [key], r.returnFields), Reply(None, Items(src, true, [key]), ValuesFor(src, r, [key]))) <==>
      src.missing == Some("") || HasAll(src.data[key], r.returnFields)
  {
    var key := Key(src, r);
    var row, engineRow := Requested(src.data[key], r.returnFields), FieldValues(src, key, r.returnFields);
    assert [key][0] == key;
    assert Trimmed(src, [key], r.returnFields) == Reply(None, [Name(key)], map[key := row]);
    assert ValuesFor(src, r, [key]) == if r.returnFields == [] then map[] else map[key := engineRow];
    RowsAgreeIff(src, key, r.returnFields);
    SameRows(key, row, engineRow);
    assert r.returnFields == [] ==> row == map[];
    SameRow(key);
  }

  lemma RowsAgreeIff(src: Source, key: string, fields: seq<string>)
    requires key in src.data
    ensures Requested(src.data[key], fields) == FieldValues(src, key, fields) <==>
      src.missing == Some("") || HasAll(src.data[key], fields)
  {
    if f :| f in fields && f !in src.data[key] && src.missing != Some("") {
      assert Requested(src.data[key], fields)[f] == Some("") && FieldValues(src, key, fields)[f] == src.missing;
    }
  }

  lemma SameRows(key: string, a: map<string, Option<string>>, b: map<string, Option<string>>)
    ensures Same(Reply(None, [Name(key)], map[key := a]), Reply(None, [Name(key)], map[key := b])) <==> a == b
  {
    var x, y := Reply(None, [Name(key)], map[key := a]), Reply(None, [Name(key)], map[key := b]);
    if Same(x, y) {
      forall f ensures (f in a <==> f in b) && (f in a ==> a[f] == b[f]) {
        RowValues(key, a, f);
        RowValues(key, b, f);
        assert ValueAt(x, key, f) == ValueAt(y, key, f);
      }
    }
  }

  lemma SameRow(key: string)
    ensures Same(Reply(None, [Name(key)], map[key := map[]]), Reply(None, [Name(key)], map[]))
  {
  }

  /** A request for one key by name whose fields exist */
  predicate Plain(src: Source, r: Request) {
    && Absolute(src, r) && r.filter.None? && r.justKeys
    && (Key(src, r) in src.data ==> HasAll(src.data[Key(src, r)], r.returnFields))
  }

  /** Such a request gets the engine's answer, whether it hits or misses. */
  lemma PlainAgrees(cache: map<string, Fields>, src: Source, r: Request)
    requires Agrees(cache, src) && Plain(src, r)
    ensures SameOutcome(OptimizerFetch(cache, src, r), EngineFetch(src, r))
  {
    if Key(src, r) in cache {
      HitAgreesIff(cache, src, r);
    } else {
      EngineOnAbsolute(src, r);
      MissAgreesIff(cache, src, r);
    }
  }

  /** Any run of requests; each one that is plain gets what the engine without a cache would give. */
  method FetchAll(optimizer: MatchRequestOptimizer, requests: seq<Request>) returns (outcomes: seq<Outcome>)
    requires optimizer.Sound() && Faithful(optimizer.engine.src) && forall r | r in requests :: WellFormed(r)
    modifies optimizer`cache
    ensures optimizer.Sound() && |outcomes| == |requests|
    ensures forall i | 0 <= i < |requests| && Plain(optimizer.engine.src, requests[i]) ::
      SameOutcome(outcomes[i], EngineFetch(optimizer.engine.src, requests[i]))
  {
    outcomes := [];
    for i := 0 to |requests|
      invariant optimizer.Sound() && |outcomes| == i
      invariant forall j | 0 <= j < i && Plain(optimizer.engine.src, requests[j]) ::
        SameOutcome(outcomes[j], EngineFetch(optimizer.engine.src, requests[j]))
    {
      assert requests[i] in requests;
      if Plain(optimizer.engine.src, requests[i]) {
        PlainAgrees(optimizer.cache, optimizer.engine.src, requests[i]);
      }
      var outcome := optimizer.Fetch(requests[i]);
      outcomes := outcomes + [outcome];
    }
  }
}
