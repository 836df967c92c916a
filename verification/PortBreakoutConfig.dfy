/** The two recursive helpers that build the config of newly added ports: searching the default
    config for everything that belongs to them, and merging what was found into the data tree.
 */
module PortBreakoutConfig {
  import opened JsonTree

  // ---------- Key search ----------

  predicate EndsWith(text: string, suffix: string) {
    |suffix| <= |text| && text[|text| - |suffix|..] == suffix
  }

  /** reg.search(key) for the pattern `^skey\||skey$|^skey$`, where `$` also matches before a last newline. */
  predicate Matches(key: string, skey: string) {
    skey + "|" <= key || EndsWith(key, skey) || EndsWith(key, skey + "\n")
  }

  predicate KeyMatches(key: string, skeys: seq<string>) {
    exists i :: 0 <= i < |skeys| && Matches(key, skeys[i])
  }

  /** The search keys that the list holds, in the order of the search keys. */
  function ItemsFound(items: seq<string>, skeys: seq<string>): seq<string> {
    if skeys == [] then []
    else (if skeys[0] in items then [skeys[0]] else []) + ItemsFound(items, skeys[1..])
  }

  /** The `found` flag. */
  predicate Found(j: Json, skeys: seq<string>) {
    match j
    case Obj(m) => exists k | k in m :: KeyMatches(k, skeys) || Found(m[k], skeys)
    case Arr(items) => ItemsFound(items, skeys) != []
    case _ => false
  }

  /** What the search leaves in Out. A matching key whose value is null is dropped again. */
  function Searched(j: Json, skeys: seq<string>): Json {
    match j
    case Obj(m) =>
      Obj(map k | k in m && ((KeyMatches(k, skeys) && !m[k].Null?) || Found(m[k], skeys))
          :: if KeyMatches(k, skeys) then m[k] else Searched(m[k], skeys))
    case Arr(items) => Arr(ItemsFound(items, skeys))
    case Str(_) => Str("")
    case Null => Null
  }

  predicate NullFree(j: Json) {
    match j
    case Null => false
    case Obj(m) => forall k | k in m :: NullFree(m[k])
    case _ => true
  }

  /** Keys match, but all of them hold null, and nothing else leads to a match. */
  predicate OnlyNulls(j: Json, skeys: seq<string>) {
    && j.Obj?
    && (exists k | k in j.m :: KeyMatches(k, skeys))
    && (forall k | k in j.m :: (KeyMatches(k, skeys) ==> j.m[k].Null?) && !Found(j.m[k], skeys))
  }

  /** No dict below, outside of what is kept whole, is one in which only nulls match. */
  predicate NoneBelow(j: Json, skeys: seq<string>) {
    j.Obj? ==> forall k | k in j.m && !KeyMatches(k, skeys) :: !OnlyNulls(j.m[k], skeys) && NoneBelow(j.m[k], skeys)
  }

  predicate PathMatches(path: seq<string>, skeys: seq<string>) {
    exists i :: 0 <= i < |path| && KeyMatches(path[i], skeys)
  }

  /** Following `path` from j ends at a matching key or at a list that holds a search key. */
  predicate LeadsToMatch(j: Json, path: seq<string>, skeys: seq<string>) {
    var end := At(Some(j), path);
    && end.Some?
    && (PathMatches(path, skeys) || (end.value.Arr? && exists s | s in skeys :: s in end.value.items))
  }

  lemma {:induction false} ItemsFoundSpec(items: seq<string>, skeys: seq<string>)
    ensures forall s :: s in ItemsFound(items, skeys) <==> s in skeys && s in items
    ensures ItemsFound(ItemsFound(items, skeys), skeys) == ItemsFound(items, skeys)
  {
    ItemsFoundMembers(items, skeys);
    ItemsFoundCongruent(ItemsFound(items, skeys), items, skeys);
  }

  lemma {:induction false} ItemsFoundMembers(items: seq<string>, skeys: seq<string>)
    ensures forall s :: s in ItemsFound(items, skeys) <==> s in skeys && s in items
  {
    if skeys != [] {
      ItemsFoundMembers(items, skeys[1..]);
      assert skeys == [skeys[0]] + skeys[1..];
    }
  }

  /** The items found keep the order of the search keys. */
  lemma {:induction false} ItemsFoundInOrder(items: seq<string>, a: seq<string>, b: seq<string>)
    ensures ItemsFound(items, a + b) == ItemsFound(items, a) + ItemsFound(items, b)
    ensures forall s :: ItemsFound(items, [s]) == if s in items then [s] else []
    decreases |a|
  {
    var none: seq<string> := [];
    forall s ensures ItemsFound(items, [s]) == if s in items then [s] else [] {
      assert [s][1..] == none && ItemsFound(items, none) == none;
    }
    if a == [] {
      assert a + b == b;
    } else {
      assert (a + b)[1..] == a[1..] + b;
      ItemsFoundInOrder(items, a[1..], b);
    }
  }

  lemma EndsWithIff(text: string, suffix: string)
    ensures EndsWith(text, suffix) <==> exists front :: text == front + suffix
  {
    if EndsWith(text, suffix) {
      assert text == text[..|text| - |suffix|] + suffix;
    }
    forall front | text == front + suffix ensures EndsWith(text, suffix) {
      assert text[|front|..] == suffix;
    }
  }

  lemma StartsWithIff(text: string, prefix: string)
    ensures prefix <= text <==> exists rest :: text == prefix + rest
  {
    if prefix <= text {
      assert text == prefix + text[|prefix|..];
    }
  }

  /** A key matches if it is the search key followed by a bar and anything, or ends in the search key, where a newline
      may follow.
   */
  lemma MatchesIff(key: string, skey: string)
    ensures Matches(key, skey) <==>
      || (exists rest :: key == skey + "|" + rest)
      || (exists front :: key == front + skey)
      || (exists front :: key == front + (skey + "\n"))
  {
    StartsWithIff(key, skey + "|");
    EndsWithIff(key, skey);
    EndsWithIff(key, skey + "\n");
  }

  /** A key stays if any of the search keys matches. */
  lemma KeyMatchesIff(key: string, skeys: seq<string>)
    ensures KeyMatches(key, skeys) <==> exists s | s in skeys :: Matches(key, s)
  {
    if s :| s in skeys && Matches(key, s) {
      var i :| 0 <= i < |skeys| && skeys[i] == s;
      assert Matches(key, skeys[i]);
    }
  }

  lemma {:induction false} ItemsFoundCongruent(a: seq<string>, b: seq<string>, skeys: seq<string>)
    requires forall s | s in skeys :: s in a <==> s in b
    ensures ItemsFound(a, skeys) == ItemsFound(b, skeys)
  {
    if skeys != [] {
      assert skeys[0] in skeys;
      assert forall s | s in skeys[1..] :: s in skeys;
      ItemsFoundCongruent(a, b, skeys[1..]);
    }
  }

  /** found says exactly that something below matches. */
  lemma {:induction false} FoundIffLeads(j: Json, skeys: seq<string>)
    ensures Found(j, skeys) <==> exists path :: LeadsToMatch(j, path, skeys)
  {
    match j
    case Obj(m) =>
      forall k | k in m
        ensures (KeyMatches(k, skeys) || Found(m[k], skeys)) ==> exists path :: LeadsToMatch(j, path, skeys)
      {
        FoundIffLeads(m[k], skeys);
        if KeyMatches(k, skeys) {
          assert At(Some(j), [k]) == At(Some(m[k]), []);
          assert [k][0] == k && LeadsToMatch(j, [k], skeys);
        } else if Found(m[k], skeys) {
          var rest :| LeadsToMatch(m[k], rest, skeys);
          LeadsStep(j, k, rest, skeys);
        }
      }
      forall path | LeadsToMatch(j, path, skeys)
        ensures Found(j, skeys)
      {
        assert path != [];
        LeadsStep(j, path[0], path[1..], skeys);
        FoundIffLeads(m[path[0]], skeys);
        assert [path[0]] + path[1..] == path;
      }
    case Arr(items) =>
      ItemsFoundSpec(items, skeys);
      if Found(j, skeys) {
        assert ItemsFound(items, skeys)[0] in ItemsFound(items, skeys);
        assert LeadsToMatch(j, [], skeys);
      }
      forall path | LeadsToMatch(j, path, skeys) ensures Found(j, skeys) {
        LeafPath(j, path);
      }
    case _ =>
      forall path | LeadsToMatch(j, path, skeys) ensures false {
        LeafPath(j, path);
      }
  }

  lemma LeadsStep(j: Json, k: string, rest: seq<string>, skeys: seq<string>)
    requires j.Obj?
    ensures At(Some(j), [k] + rest) == At(Get(Some(j), k), rest)
    ensures LeadsToMatch(j, [k] + rest, skeys) ==> k in j.m
    ensures k in j.m ==> (LeadsToMatch(j, [k] + rest, skeys) <==>
      LeadsToMatch(j.m[k], rest, skeys) || (KeyMatches(k, skeys) && At(Some(j.m[k]), rest).Some?))
  {
    var path := [k] + rest;
    assert path[1..] == rest;
    if k !in j.m { NowhereFromNone(rest); }
    MatchesStep(k, rest, skeys);
  }

  lemma LeafPath(j: Json, path: seq<string>)
    requires !j.Obj?
    ensures At(Some(j), path) == if path == [] then Some(j) else None
  {
    if path != [] { NowhereFromNone(path[1..]); }
  }

  lemma FoundOnPath(j: Json, path: seq<string>, skeys: seq<string>)
    requires At(Some(j), path).Some? && PathMatches(path, skeys)
    ensures Found(j, skeys)
  {
    FoundIffLeads(j, skeys);
    assert LeadsToMatch(j, path, skeys);
  }

  lemma FoundBelow(j: Json, path: seq<string>, rest: seq<string>, skeys: seq<string>)
    requires At(Some(j), path).Some? && LeadsToMatch(At(Some(j), path).value, rest, skeys)
    ensures Found(j, skeys)
  {
    AtConcat(Some(j), path, rest);
    if PathMatches(rest, skeys) { MatchesConcat(path, rest, skeys); }
    FoundIffLeads(j, skeys);
    assert LeadsToMatch(j, path + rest, skeys);
  }

  /** The exact meaning of the search result, place by place. Below a matching key everything is
      there unchanged, except that a null is gone if its own key is the first to match; elsewhere lists
      keep the search keys they hold, and an object is there exactly when it leads to a match.
   */
  lemma {:induction false} SearchedAt(j: Json, path: seq<string>, skeys: seq<string>)
    requires path != []
    ensures
      var inp, outp := At(Some(j), path), At(Some(Searched(j, skeys)), path);
      if PathMatches(path, skeys) then
        outp == if inp == Some(Null) && !PathMatches(path[..|path| - 1], skeys) then None else inp
      else match inp {
        case None => outp == None
        case Some(v) =>
          if !exists rest :: LeadsToMatch(v, rest, skeys) then outp == None
          else outp.Some? && outp.value == Searched(v, skeys)
               && (v.Obj? ==> outp.value.Obj?)
               && (v.Arr? ==> outp.value == Arr(ItemsFound(v.items, skeys)))
      }
    decreases |path|
  {
    var k, rest := path[0], path[1..];
    assert path == [k] + rest;
    if j.Obj? {
      MatchesStep(k, rest, skeys);
      if rest != [] {
        assert path[..|path| - 1] == [k] + rest[..|rest| - 1];
        MatchesStep(k, rest[..|rest| - 1], skeys);
      }
      if k !in j.m {
        NowhereFromNone(rest);
      } else if KeyMatches(k, skeys) {
        if j.m[k].Null? && rest != [] { LeafPath(Null, rest); NowhereFromNone(rest); }
      } else {
        FoundIffLeads(j.m[k], skeys);
        if rest != [] {
          SearchedAt(j.m[k], rest, skeys);
          if !Found(j.m[k], skeys) { NothingOnPath(j.m[k], rest, skeys); }
        }
      }
    } else {
      NowhereFromNone(rest);
    }
  }

  lemma MatchesStep(k: string, rest: seq<string>, skeys: seq<string>)
    ensures PathMatches([k] + rest, skeys) <==> KeyMatches(k, skeys) || PathMatches(rest, skeys)
  {
    var path := [k] + rest;
    if KeyMatches(k, skeys) { assert path[0] == k; }
    if PathMatches(rest, skeys) {
      var i :| 0 <= i < |rest| && KeyMatches(rest[i], skeys);
      assert path[i + 1] == rest[i];
    }
  }

  lemma NothingOnPath(j: Json, path: seq<string>, skeys: seq<string>)
    requires !Found(j, skeys)
    ensures At(None, path) == None
    ensures At(Some(j), path).Some? ==>
      !PathMatches(path, skeys) && !exists rest :: LeadsToMatch(At(Some(j), path).value, rest, skeys)
  {
    NowhereFromNone(path);
    var v := At(Some(j), path);
    if v.Some? {
      forall rest ensures !LeadsToMatch(v.value, rest, skeys) {
        if LeadsToMatch(v.value, rest, skeys) { FoundBelow(j, path, rest, skeys); }
      }
      if PathMatches(path, skeys) { FoundOnPath(j, path, skeys); }
    }
  }

  lemma {:induction false} AtConcat(j: Option<Json>, a: seq<string>, b: seq<string>)
    ensures At(j, a + b) == At(At(j, a), b)
    decreases |a|
  {
    if a == [] {
      assert a + b == b;
    } else {
      assert (a + b)[1..] == a[1..] + b;
      AtConcat(Get(j, a[0]), a[1..], b);
    }
  }

  lemma MatchesConcat(a: seq<string>, b: seq<string>, skeys: seq<string>)
    requires PathMatches(b, skeys)
    ensures PathMatches(a + b, skeys)
  {
    var i :| 0 <= i < |b| && KeyMatches(b[i], skeys);
    assert (a + b)[|a| + i] == b[i];
  }

  /** found says exactly whether something was put in Out, unless only nulls match. */
  lemma FoundIffNonempty(j: Json, skeys: seq<string>)
    requires j.Obj?
    ensures (Found(j, skeys) <==> Searched(j, skeys).m != map[]) <==> !OnlyNulls(j, skeys)
    ensures OnlyNulls(j, skeys) ==> Found(j, skeys) && Searched(j, skeys).m == map[]
  {
    forall k | k in j.m
      ensures k in Searched(j, skeys).m <==> (KeyMatches(k, skeys) && !j.m[k].Null?) || Found(j.m[k], skeys)
    {
    }
    assert Searched(j, skeys).m != map[] <==> exists k :: k in Searched(j, skeys).m;
  }

  /** Without null, only nulls match nowhere. */
  lemma {:induction false} NullFreeHolds(j: Json, skeys: seq<string>)
    requires NullFree(j)
    ensures !OnlyNulls(j, skeys) && NoneBelow(j, skeys)
  {
    if j.Obj? {
      forall k | k in j.m ensures !OnlyNulls(j.m[k], skeys) && NoneBelow(j.m[k], skeys) {
        NullFreeHolds(j.m[k], skeys);
      }
    }
  }

  /** A null under its one matching key is found with nothing in Out; one level further down, a second search
      takes away the dict that the first one left.
   */
  lemma NullBreaksFound(key: string, outer: string, skeys: seq<string>)
    requires KeyMatches(key, skeys) && !KeyMatches(outer, skeys)
    ensures
      var j := Obj(map[key := Null]);
      var around := Obj(map[outer := j]);
      && Found(j, skeys) && Searched(j, skeys) == Obj(map[])
      && Searched(around, skeys) == Obj(map[outer := Obj(map[])])
      && Searched(Searched(around, skeys), skeys) == Obj(map[])
  {
    var j := Obj(map[key := Null]);
    var around := Obj(map[outer := j]);
    assert j.m[key] == Null && !Found(Null, skeys);
    assert Found(j, skeys) && Searched(j, skeys).m == map[];
    assert around.m[outer] == j;
    var once := Searched(around, skeys);
    assert once.m == map[outer := Obj(map[])];
    assert once.m[outer] == Obj(map[]) && !Found(Obj(map[]), skeys);
    assert Searched(once, skeys).m == map[];
  }

  /** Where only nulls match somewhere, something is found. */
  lemma {:induction false} NoneBelowWithout(j: Json, skeys: seq<string>)
    requires !Found(j, skeys)
    ensures !OnlyNulls(j, skeys) && NoneBelow(j, skeys)
  {
    if j.Obj? {
      forall k | k in j.m ensures !OnlyNulls(j.m[k], skeys) && NoneBelow(j.m[k], skeys) {
        NoneBelowWithout(j.m[k], skeys);
      }
    }
  }

  lemma {:induction false} FoundAgain(j: Json, skeys: seq<string>)
    requires NoneBelow(j, skeys)
    ensures Found(Searched(j, skeys), skeys) <==> Found(j, skeys) && !OnlyNulls(j, skeys)
  {
    match j
    case Obj(m) =>
      var once := Searched(j, skeys).m;
      forall k | k in m
        ensures k in once <==> (KeyMatches(k, skeys) && !m[k].Null?) || Found(m[k], skeys)
        ensures k in once && !KeyMatches(k, skeys) ==> Found(once[k], skeys)
      {
        if !KeyMatches(k, skeys) { FoundAgain(m[k], skeys); }
      }
    case Arr(items) => ItemsFoundSpec(items, skeys);
    case _ =>
  }

  /** Searching the result again changes nothing, exactly if no dict below is one in which only nulls match. */
  lemma {:induction false} SearchIdempotentIff(j: Json, skeys: seq<string>)
    ensures Searched(Searched(j, skeys), skeys) == Searched(j, skeys) <==> NoneBelow(j, skeys)
  {
    match j
    case Obj(m) =>
      var once := Searched(j, skeys).m;
      var twice := Searched(Obj(once), skeys).m;
      forall k | k in m
        ensures Lookup(twice, k) == Lookup(once, k) <==>
          KeyMatches(k, skeys) || (!OnlyNulls(m[k], skeys) && NoneBelow(m[k], skeys))
      {
        SearchIdempotentIff(m[k], skeys);
        KeySearchedAgain(m, k, skeys);
      }
      if NoneBelow(j, skeys) {
        forall k: string ensures Lookup(twice, k) == Lookup(once, k) {
        }
        SameLookups(twice, once);
      }
    case Arr(items) => ItemsFoundSpec(items, skeys);
    case _ =>
  }

  lemma KeySearchedAgain(m: map<string, Json>, k: string, skeys: seq<string>)
    requires k in m
    requires Searched(Searched(m[k], skeys), skeys) == Searched(m[k], skeys) <==> NoneBelow(m[k], skeys)
    ensures
      var once := Searched(Obj(m), skeys);
      Lookup(Searched(once, skeys).m, k) == Lookup(once.m, k) <==>
        KeyMatches(k, skeys) || (!OnlyNulls(m[k], skeys) && NoneBelow(m[k], skeys))
  {
    var once := Searched(Obj(m), skeys).m;
    if KeyMatches(k, skeys) {
      assert m[k].Null? ==> !Found(m[k], skeys);
    } else if !Found(m[k], skeys) {
      NoneBelowWithout(m[k], skeys);
    } else {
      assert k in once && once[k] == Searched(m[k], skeys);
      if NoneBelow(m[k], skeys) { FoundAgain(m[k], skeys); }
    }
  }

  /** The regular expressions, tried one search key after the other. */
  method MatchKey(key: string, skeys: seq<string>) returns (matched: bool)
    ensures matched <==> KeyMatches(key, skeys)
  {
    for i := 0 to |skeys|
      invariant forall n :: 0 <= n < i ==> !Matches(key, skeys[n])
    {
      if Matches(key, skeys[i]) {
        return true;
      }
    }
    matched := false;
  }

  /** The search of a list. */
  method SearchList(items: seq<string>, skeys: seq<string>) returns (kept: seq<string>)
    ensures kept == ItemsFound(items, skeys)
  {
    kept := [];
    assert skeys[0..] == skeys;
    for i := 0 to |skeys|
      invariant kept + ItemsFound(items, skeys[i..]) == ItemsFound(items, skeys)
    {
      assert skeys[i..][1..] == skeys[i + 1..];
      if skeys[i] in items {
        kept := kept + [skeys[i]];
      }
    }
  }

  /** What one key of a dict leaves in Out. */
  function KeySearched(m: map<string, Json>, k: string, skeys: seq<string>): Option<Json>
    requires k in m
  {
    if KeyMatches(k, skeys) && !m[k].Null? then Some(m[k])
    else if Found(m[k], skeys) then Some(Searched(m[k], skeys))
    else None
  }

  lemma SearchedByKey(m: map<string, Json>, skeys: seq<string>, filled: map<string, Json>)
    requires filled.Keys <= m.Keys
    requires forall k | k in m :: Lookup(filled, k) == KeySearched(m, k, skeys)
    ensures Obj(filled) == Searched(Obj(m), skeys)
  {
    var out := Searched(Obj(m), skeys).m;
    forall k: string ensures Lookup(filled, k) == Lookup(out, k) {
      assert k in m ==> Lookup(filled, k) == KeySearched(m, k, skeys);
    }
    SameLookups(filled, out);
  }

  /** _searchKeysInConfig, visiting the keys of each dict in any order. */
  method SearchKeysInConfig(j: Json, skeys: seq<string>) returns (out: Json, found: bool)
    ensures out == Searched(j, skeys) && found == Found(j, skeys)
    decreases j, 1
  {
    match j
    case Obj(m) =>
      out, found := SearchDict(m, j, skeys);
    case Arr(items) =>
      var kept := SearchList(items, skeys);
      out, found := Arr(kept), kept != [];
    case Str(_) => out, found := Str(""), false;
    case Null => out, found := Null, false;
  }

  method SearchDict(m: map<string, Json>, ghost whole: Json, skeys: seq<string>) returns (out: Json, found: bool)
    requires whole == Obj(m)
    ensures out == Searched(Obj(m), skeys) && found == Found(Obj(m), skeys)
    decreases whole, 0
  {
    var filled: map<string, Json> := map[];
    found := false;
    var todo := m.Keys;
    while todo != {}
      invariant todo <= m.Keys
      invariant found <==> exists k | k in m && k !in todo :: KeyMatches(k, skeys) || Found(m[k], skeys)
      invariant filled.Keys <= m.Keys - todo
      invariant forall k | k in m && k !in todo :: Lookup(filled, k) == KeySearched(m, k, skeys)
    {
      var key :| key in todo;
      var matched := MatchKey(key, skeys);
      if matched {
        found := true;
        filled := filled[key := m[key]];
      }
      if key !in filled || filled[key].Null? {
        var sub, below := SearchKeysInConfig(m[key], skeys);
        if below {
          found := true;
          filled := filled[key := sub];
        } else {
          filled := filled - {key};
        }
      }
      todo := todo - {key};
    }
    SearchedByKey(m, skeys, filled);
    out := Obj(filled);
  }

  // ---------- Merge ----------

  /** _mergeItems; None stands for the exception. */
  function MergedItem(a: Json, b: Json): Option<Json>
    decreases a, 1
  {
    if a.Arr? && b.Arr? then Some(Arr(a.items + b.items))
    else if a.Obj? && b.Obj? then Merged(a, b, true)
    else if a.Arr? || b.Arr? || a.Obj? || b.Obj? then None
    else Some(a)
  }

  /** What the key holds in the first dict after the merge. */
  function MergedKey(a: Json, b: Json, uniqueKeys: bool, k: string): Option<Json>
    requires a.Obj? && b.Obj? && k in a.m
    decreases a, 0, 0
  {
    if k in b.m && Truthy(b.m[k]) then MergedItem(a.m[k], b.m[k])
    else if k in b.m && uniqueKeys then Some(b.m[k])
    else Some(a.m[k])
  }

  /** The first dict after _mergeConfigs. A key of the second dict whose value is empty is not
      deleted from it, so the final update puts the empty value over the first dict's.
   */
  function Merged(a: Json, b: Json, uniqueKeys: bool): Option<Json>
    requires a.Obj? && b.Obj?
    decreases a, 0, 1
  {
    if exists k | k in a.m :: MergedKey(a, b, uniqueKeys, k).None? then None
    else
      Some(Obj(map k | k in a.m.Keys + (if uniqueKeys then b.m.Keys else {})
               :: if k in a.m then MergedKey(a, b, uniqueKeys, k).value else b.m[k]))
  }

  /** The second dict after _mergeConfigs. */
  function LeftOver(a: map<string, Json>, b: map<string, Json>): map<string, Json> {
    map k | k in b && !(k in a && Truthy(b[k])) :: b[k]
  }

  /** Nothing of `a` is lost in `r`: strings are unchanged, lists only grow at the end, keys stay. */
  predicate Kept(a: Json, r: Json) {
    match a
    case Arr(items) => r.Arr? && items <= r.items
    case Obj(m) => r.Obj? && m.Keys <= r.m.Keys && forall k | k in m :: Kept(m[k], r.m[k])
    case _ => r == a
  }

  /** Everything of `b` that `a` does not decide is in `r`. */
  predicate Covered(b: Json, r: Json) {
    match b
    case Null => true
    case Str(_) => r.Str? || r.Null?
    case Arr(items) => r.Arr? && EndsWithItems(r.items, items)
    case Obj(m) => r.Obj? && m.Keys <= r.m.Keys && forall k | k in m :: Covered(m[k], r.m[k])
  }

  predicate EndsWithItems(items: seq<string>, end: seq<string>) {
    |end| <= |items| && items[|items| - |end|..] == end
  }

  /** Where both dicts have a key and the second one's value is empty, the two are the same. */
  predicate NoEmptyClash(a: Json, b: Json) {
    a.Obj? && b.Obj? ==>
      forall k | k in a.m && k in b.m ::
        if Truthy(b.m[k]) then NoEmptyClash(a.m[k], b.m[k]) else a.m[k] == b.m[k]
  }

  lemma {:induction false} KeptItself(a: Json)
    ensures Kept(a, a) && Covered(a, a)
  {
    if a.Obj? {
      forall k | k in a.m ensures Kept(a.m[k], a.m[k]) && Covered(a.m[k], a.m[k]) { KeptItself(a.m[k]); }
    }
  }

  /** The first dict takes priority exactly when no value of the second one is empty where the first has one. */
  lemma {:induction false} MergeKeepsFirst(a: Json, b: Json)
    requires a.Obj? && b.Obj? && Merged(a, b, true).Some?
    ensures Kept(a, Merged(a, b, true).value) <==> NoEmptyClash(a, b)
    decreases a
  {
    var r := Merged(a, b, true).value;
    forall k | k in a.m
      ensures k in r.m && r.m[k] == MergedKey(a, b, true, k).value
      ensures Kept(a.m[k], r.m[k]) <==>
        (k in b.m ==> if Truthy(b.m[k]) then NoEmptyClash(a.m[k], b.m[k]) else a.m[k] == b.m[k])
    {
      assert MergedKey(a, b, true, k).Some?;
      KeptItself(a.m[k]);
      if k in b.m && Truthy(b.m[k]) {
        assert MergedKey(a, b, true, k) == MergedItem(a.m[k], b.m[k]);
      }
      if k in b.m && Truthy(b.m[k]) && a.m[k].Obj? && b.m[k].Obj? {
        MergeKeepsFirst(a.m[k], b.m[k]);
      } else if k in b.m && !Truthy(b.m[k]) {
        KeptEmpty(a.m[k], b.m[k]);
      }
    }
  }

  lemma KeptEmpty(a: Json, b: Json)
    requires !Truthy(b)
    ensures Kept(a, b) <==> a == b
  {
    KeptItself(a);
    if a.Obj? && b.Obj? && Kept(a, b) { assert a.m == map[]; }
  }

  /** An empty value of the second dict always ends up in the result, and the first dict loses its own there,
      unless that is the same.
   */
  lemma EmptyValueWins(a: Json, b: Json, k: string)
    requires a.Obj? && b.Obj? && Merged(a, b, true).Some?
    requires k in a.m && k in b.m && !Truthy(b.m[k])
    ensures
      var r := Merged(a, b, true).value;
      && k in r.m && r.m[k] == b.m[k]
      && (Kept(a.m[k], r.m[k]) <==> a.m[k] == b.m[k])
      && (a.m[k] != b.m[k] ==> !Kept(a, r))
  {
    assert MergedKey(a, b, true, k) == Some(b.m[k]);
    KeptEmpty(a.m[k], b.m[k]);
  }

  /** Whatever the second dict brings ends up in the result. */
  lemma {:induction false} MergeCoversSecond(a: Json, b: Json)
    requires a.Obj? && b.Obj? && Merged(a, b, true).Some?
    ensures Covered(b, Merged(a, b, true).value)
    decreases a
  {
    var r := Merged(a, b, true).value;
    forall k | k in b.m
      ensures k in r.m && Covered(b.m[k], r.m[k])
    {
      KeptItself(b.m[k]);
      if k in a.m {
        assert MergedKey(a, b, true, k).Some?;
        if Truthy(b.m[k]) {
          assert MergedKey(a, b, true, k) == MergedItem(a.m[k], b.m[k]);
        }
        if Truthy(b.m[k]) && a.m[k].Obj? && b.m[k].Obj? {
          MergeCoversSecond(a.m[k], b.m[k]);
        }
      }
    }
  }

  /** One of the two is a list or a dict and the other is not. */
  predicate Unlike(a: Json, b: Json) {
    a.Arr? != b.Arr? || a.Obj? != b.Obj?
  }

  /** The path leads through dicts of both trees to a value that is not empty in the second and unlike in the first. */
  predicate Clashes(a: Json, b: Json, path: seq<string>) {
    var x, y := At(Some(a), path), At(Some(b), path);
    path != [] && x.Some? && y.Some? && Truthy(y.value) && Unlike(x.value, y.value)
  }

  /** The merge raises exactly if the two trees clash at some path. */
  lemma {:induction false} MergeRaisesIff(a: Json, b: Json, uniqueKeys: bool)
    requires a.Obj? && b.Obj?
    ensures Merged(a, b, uniqueKeys).None? <==> exists path :: Clashes(a, b, path)
    decreases a
  {
    forall k | k in a.m && MergedKey(a, b, uniqueKeys, k).None? ensures exists path :: Clashes(a, b, path) {
      assert k in b.m && Truthy(b.m[k]) && MergedItem(a.m[k], b.m[k]).None?;
      if a.m[k].Obj? && b.m[k].Obj? {
        MergeRaisesIff(a.m[k], b.m[k], true);
        var rest :| Clashes(a.m[k], b.m[k], rest);
        assert ([k] + rest)[1..] == rest;
        assert Clashes(a, b, [k] + rest);
      } else {
        assert [k][1..] == [];
        assert Clashes(a, b, [k]);
      }
    }
    forall path | Clashes(a, b, path) ensures Merged(a, b, uniqueKeys).None? {
      var k, rest := path[0], path[1..];
      GetSome(a, k, rest);
      GetSome(b, k, rest);
      if rest != [] {
        GetSome(a.m[k], rest[0], rest[1..]);
        GetSome(b.m[k], rest[0], rest[1..]);
        MergeRaisesIff(a.m[k], b.m[k], true);
        assert Clashes(a.m[k], b.m[k], rest);
      }
      assert MergedKey(a, b, uniqueKeys, k).None?;
    }
  }

  /** On the path, the second tree has an empty value where the first one has any. */
  predicate Overwritten(a: Option<Json>, b: Option<Json>, path: seq<string>)
    decreases |path|
  {
    path != []
    && var x, y := Get(a, path[0]), Get(b, path[0]);
       (x.Some? && y.Some? && !Truthy(y.value)) || Overwritten(x, y, path[1..])
  }

  lemma {:induction false} OverwritesWhereBoth(a: Option<Json>, b: Option<Json>, path: seq<string>)
    ensures a.None? || b.None? ==> !Overwritten(a, b, path)
    decreases |path|
  {
    if path != [] { OverwritesWhereBoth(Get(a, path[0]), Get(b, path[0]), path[1..]); }
  }

  /** What stands at a path after the merge: the empty value of the second tree, if one is on the way; else the
      value of the one tree that has it, the first list and then the second, a dict for two dicts, and
      otherwise the value of the first.
   */
  predicate PlaceMerged(a: Json, b: Json, r: Json, path: seq<string>) {
    var x, y, z := At(Some(a), path), At(Some(b), path), At(Some(r), path);
    if Overwritten(Some(a), Some(b), path) || x.None? then z == y
    else if y.None? then z == x
    else if x.value.Arr? then y.value.Arr? && z == Some(Arr(x.value.items + y.value.items))
    else if x.value.Obj? then y.value.Obj? && z.Some? && z.value.Obj?
    else z == x
  }

  /** The result of the merge, place by place */
  lemma {:induction false} MergedAt(a: Json, b: Json, path: seq<string>)
    requires a.Obj? && b.Obj? && Merged(a, b, true).Some? && path != []
    ensures PlaceMerged(a, b, Merged(a, b, true).value, path)
    decreases |path|
  {
    var r := Merged(a, b, true).value;
    var k, rest := path[0], path[1..];
    NowhereFromNone(rest);
    OverwritesWhereBoth(Get(Some(a), k), Get(Some(b), k), rest);
    if k in a.m && k in b.m {
      assert MergedKey(a, b, true, k).Some? && r.m[k] == MergedKey(a, b, true, k).value;
      if Truthy(b.m[k]) {
        assert MergedKey(a, b, true, k) == MergedItem(a.m[k], b.m[k]);
        if a.m[k].Obj? && b.m[k].Obj? {
          assert MergedItem(a.m[k], b.m[k]) == Merged(a.m[k], b.m[k], true);
          if rest != [] { MergedAt(a.m[k], b.m[k], rest); }
          DictPlace(a, b, r, path);
        } else {
          LeavesMerged(a.m[k], b.m[k], r.m[k], rest);
          LeafPlace(a, b, r, path);
        }
      }
    } else if k in a.m {
      assert MergedKey(a, b, true, k) == Some(a.m[k]) && r.m[k] == a.m[k];
    }
  }

  lemma DictPlace(a: Json, b: Json, r: Json, path: seq<string>)
    requires a.Obj? && b.Obj? && r.Obj? && path != [] && path[0] in a.m && path[0] in b.m && path[0] in r.m
    requires var k := path[0]; a.m[k].Obj? && b.m[k].Obj? && r.m[k].Obj? && Truthy(b.m[k])
    requires path[1..] != [] ==> PlaceMerged(a.m[path[0]], b.m[path[0]], r.m[path[0]], path[1..])
    ensures PlaceMerged(a, b, r, path)
  {
    var k, rest := path[0], path[1..];
    assert Overwritten(Some(a), Some(b), path) <==> Overwritten(Some(a.m[k]), Some(b.m[k]), rest);
    assert At(Some(a), path) == At(Some(a.m[k]), rest);
    assert At(Some(b), path) == At(Some(b.m[k]), rest);
    assert At(Some(r), path) == At(Some(r.m[k]), rest);
  }

  lemma LeafPlace(a: Json, b: Json, r: Json, path: seq<string>)
    requires a.Obj? && b.Obj? && r.Obj? && path != [] && path[0] in a.m && path[0] in b.m && path[0] in r.m
    requires var k := path[0];
      && !a.m[k].Obj? && !b.m[k].Obj? && Truthy(b.m[k])
      && MergedItem(a.m[k], b.m[k]) == Some(r.m[k])
    requires var k, rest := path[0], path[1..];
      && !Overwritten(Some(a.m[k]), Some(b.m[k]), rest)
      && (rest != [] ==>
            At(Some(a.m[k]), rest) == None == At(Some(b.m[k]), rest) && At(Some(r.m[k]), rest) == None)
    ensures PlaceMerged(a, b, r, path)
  {
    var k, rest := path[0], path[1..];
    assert !Overwritten(Some(a), Some(b), path);
    assert At(Some(a), path) == At(Some(a.m[k]), rest);
    assert At(Some(b), path) == At(Some(b.m[k]), rest);
    assert At(Some(r), path) == At(Some(r.m[k]), rest);
  }

  lemma LeavesMerged(x: Json, y: Json, z: Json, rest: seq<string>)
    requires !x.Obj? && !y.Obj? && !z.Obj?
    ensures !Overwritten(Some(x), Some(y), rest)
    ensures rest != [] ==> At(Some(x), rest) == None == At(Some(y), rest) && At(Some(z), rest) == None
  {
    LeafPath(x, rest);
    LeafPath(y, rest);
    LeafPath(z, rest);
    if rest != [] { OverwritesWhereBoth(Get(Some(x), rest[0]), Get(Some(y), rest[0]), rest[1..]); }
  }

  ghost predicate HasClash(a: Json, b: Json) {
    exists path :: Clashes(a, b, path)
  }

  /** Every place of r is that of the merge. */
  ghost predicate IsMerge(a: Json, b: Json, r: Json) {
    forall path | path != [] :: PlaceMerged(a, b, r, path)
  }

  lemma MergeMeans(a: Json, b: Json, uniqueKeys: bool)
    requires a.Obj? && b.Obj?
    ensures Merged(a, b, uniqueKeys).None? <==> HasClash(a, b)
    ensures uniqueKeys && Merged(a, b, uniqueKeys).Some? ==> IsMerge(a, b, Merged(a, b, uniqueKeys).value)
  {
    MergeRaisesIff(a, b, uniqueKeys);
    if uniqueKeys && Merged(a, b, uniqueKeys).Some? {
      forall path | path != [] ensures PlaceMerged(a, b, Merged(a, b, uniqueKeys).value, path) { MergedAt(a, b, path); }
    }
  }

  /** Without unique keys, the keys of the first dict are merged alike, and no others are taken over. */
  lemma MergedWithoutUnique(a: Json, b: Json)
    requires a.Obj? && b.Obj? && Merged(a, b, false).Some?
    ensures Merged(a, b, true).Some?
    ensures
      var r := Merged(a, b, false).value;
      && r.Obj? && r.m.Keys == a.m.Keys
      && forall k | k in a.m ::
           r.m[k] == if k in b.m && Truthy(b.m[k]) then Merged(a, b, true).value.m[k] else a.m[k]
  {
    MergeRaisesIff(a, b, false);
    MergeRaisesIff(a, b, true);
    forall k | k in a.m ensures MergedKey(a, b, true, k).Some? && MergedKey(a, b, false, k).Some? {
    }
  }

  /** The second dict while some keys of the first are still to be visited */
  function RestWhile(a: map<string, Json>, b: map<string, Json>, todo: set<string>): map<string, Json> {
    map k | k in b && !(k in a && k !in todo && Truthy(b[k])) :: b[k]
  }

  lemma RestStep(a: map<string, Json>, b: map<string, Json>, todo: set<string>, key: string)
    requires key in todo && key in a
    ensures RestWhile(a, b, todo - {key}) ==
      if key in b && Truthy(b[key]) then RestWhile(a, b, todo) - {key} else RestWhile(a, b, todo)
  {
  }

  lemma KeyRaises(a: Json, b: Json, uniqueKeys: bool, key: string)
    requires a.Obj? && b.Obj? && key in a.m && MergedKey(a, b, uniqueKeys, key).None?
    ensures Merged(a, b, uniqueKeys).None? && HasClash(a, b)
  {
    MergeMeans(a, b, uniqueKeys);
  }

  /** _mergeConfigs: both dicts change; None stands for the exception. */
  method MergeConfigs(a: Json, b: Json, uniqueKeys: bool) returns (r: Option<Json>, rest: map<string, Json>)
    requires a.Obj? && b.Obj?
    ensures r == Merged(a, b, uniqueKeys)
    ensures r.None? <==> HasClash(a, b)
    ensures r.Some? && uniqueKeys ==> IsMerge(a, b, r.value)
    ensures r.Some? ==> rest == LeftOver(a.m, b.m)
    decreases a, 0
  {
    var first := a.m;
    rest := b.m;
    var todo := a.m.Keys;
    while todo != {}
      invariant todo <= a.m.Keys && first.Keys == a.m.Keys
      invariant forall k | k in a.m && k !in todo :: MergedKey(a, b, uniqueKeys, k).Some?
      invariant forall k | k in a.m ::
        first[k] == if k in todo || !(k in b.m && Truthy(b.m[k])) then a.m[k] else MergedKey(a, b, uniqueKeys, k).value
      invariant rest == RestWhile(a.m, b.m, todo)
    {
      var key :| key in todo;
      RestStep(a.m, b.m, todo, key);
      if key in rest && Truthy(rest[key]) {
        var merged := MergeItems(first[key], rest[key]);
        if merged.None? {
          KeyRaises(a, b, uniqueKeys, key);
          return None, rest;
        }
        first := first[key := merged.value];
        rest := rest - {key};
      }
      todo := todo - {key};
    }
    if uniqueKeys {
      first := first + rest;
    }
    r := Some(Obj(first));
    assert first == Merged(a, b, uniqueKeys).value.m;
    MergeMeans(a, b, uniqueKeys);
  }

  method MergeItems(a: Json, b: Json) returns (r: Option<Json>)
    ensures r == MergedItem(a, b)
    decreases a, 1
  {
    if a.Arr? && b.Arr? {
      r := Some(Arr(a.items + b.items));
    } else if a.Obj? && b.Obj? {
      var merged, _ := MergeConfigs(a, b, true);
      r := merged;
    } else if a.Arr? || b.Arr? || a.Obj? || b.Obj? {
      r := None;
    } else {
      r := Some(a);
    }
  }
}
