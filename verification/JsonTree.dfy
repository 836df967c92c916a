/** JSON values as they appear in a Config DB document, and the shape such a document has:
    tables (level 0) of entries (level 1) of fields (level 2), whose values are strings or
    lists of strings (level 3).
 */
module JsonTree {

  datatype Option<+T> = None | Some(value: T)

  datatype Json =
    | Null
    | Str(s: string)
    | Arr(items: seq<string>)
    | Obj(m: map<string, Json>)

  /** The children of an object; anything else has none. */
  function Kids(j: Json): map<string, Json> {
    if j.Obj? then j.m else map[]
  }

  /** dict.get(key) */
  function Lookup<K, V>(m: map<K, V>, key: K): Option<V> {
    if key in m then Some(m[key]) else None
  }

  lemma SameLookups<K(!new), V>(a: map<K, V>, b: map<K, V>)
    requires forall k :: Lookup(a, k) == Lookup(b, k)
    ensures a == b
  {
    forall k ensures k in a <==> k in b { assert Lookup(a, k) == Lookup(b, k); }
    forall k | k in a ensures a[k] == b[k] { assert Lookup(a, k) == Lookup(b, k); }
  }

  /** The elements of a set in some order, as iterating over a Python set or dict gives them */
  method SomeOrder<T>(s: set<T>) returns (order: seq<T>)
    ensures forall x :: x in order <==> x in s
    ensures |order| == |s|
  {
    order := [];
    var todo := s;
    while todo != {}
      invariant todo <= s && |order| + |todo| == |s|
      invariant forall x :: x in order <==> x in s - todo
    {
      var x :| x in todo;
      order := order + [x];
      todo := todo - {x};
    }
  }

  /** dict.get(key) on a value that may not be there. */
  function Get(j: Option<Json>, key: string): Option<Json> {
    if j.Some? then Lookup(Kids(j.value), key) else None
  }

  /** The value at the end of a path of keys */
  function At(j: Option<Json>, path: seq<string>): Option<Json>
    decreases |path|
  {
    if path == [] then j else At(Get(j, path[0]), path[1..])
  }

  lemma {:induction false} NowhereFromNone(path: seq<string>)
    ensures At(None, path) == None
  {
    if path != [] { NowhereFromNone(path[1..]); }
  }

  lemma GetSome(j: Json, k: string, rest: seq<string>)
    requires At(Get(Some(j), k), rest).Some?
    ensures j.Obj? && k in j.m
  {
    NowhereFromNone(rest);
  }

  /** Python's truth value. */
  predicate Truthy(j: Json) {
    match j
    case Null => false
    case Str(s) => s != ""
    case Arr(items) => items != []
    case Obj(m) => m != map[]
  }

  /** Exactly four values count as false. */
  lemma FalsyValues(j: Json)
    ensures !Truthy(j) <==> j in {Null, Str(""), Arr([]), Obj(map[])}
  {
  }

  /** A config or a part of it, `level` steps below the root. A table with no keys does not exist. */
  predicate Shape(j: Json, level: nat)
    decreases j
  {
    match j
    case Null => false
    case Str(_) => level >= 3
    case Arr(_) => level >= 3
    case Obj(m) => level < 3 && (level == 1 ==> m != map[]) && forall k | k in m :: Shape(m[k], level + 1)
  }

  /** The store never holds an empty list: it comes back as the list of one empty string. */
  predicate NoEmptyList(j: Json) {
    match j
    case Null => true
    case Str(_) => true
    case Arr(items) => items != []
    case Obj(m) => forall k | k in m :: NoEmptyList(m[k])
  }

  function LowerChar(c: char): char {
    if 'A' <= c <= 'Z' then (c as int + 32) as char else c
  }

  /** str.lower() on ASCII text. */
  function Lower(s: string): string {
    if s == "" then "" else [LowerChar(s[0])] + Lower(s[1..])
  }

  /** The same ASCII letter, or the same character */
  predicate SameLetter(c: char, d: char) {
    || c == d
    || ('A' <= c <= 'Z' && d as int == c as int + 32)
    || ('A' <= d <= 'Z' && c as int == d as int + 32)
  }

  /** The texts differ in the case of ASCII letters at most. */
  predicate SameButCase(s: string, t: string) {
    |s| == |t| && forall i | 0 <= i < |s| :: SameLetter(s[i], t[i])
  }

  lemma {:induction false} LowerIff(s: string, t: string)
    ensures Lower(s) == Lower(t) <==> SameButCase(s, t)
    ensures |Lower(s)| == |s| && |Lower(t)| == |t|
    decreases |s| + |t|
  {
    if s != "" && t != "" {
      LowerIff(s[1..], t[1..]);
      assert Lower(s)[0] == LowerChar(s[0]) && Lower(t)[0] == LowerChar(t[0]);
      assert Lower(s)[1..] == Lower(s[1..]) && Lower(t)[1..] == Lower(t[1..]);
      if Lower(s) == Lower(t) {
        forall i | 0 <= i < |s| ensures SameLetter(s[i], t[i]) {
          if i > 0 { assert s[i] == s[1..][i - 1] && t[i] == t[1..][i - 1]; }
        }
      }
      if SameButCase(s, t) {
        forall i | 0 <= i < |s[1..]| ensures SameLetter(s[1..][i], t[1..][i]) {
          assert SameLetter(s[i + 1], t[i + 1]);
        }
        assert SameLetter(s[0], t[0]);
      }
    } else if s != "" {
      LowerIff(s[1..], t);
    } else if t != "" {
      LowerIff(s, t[1..]);
    }
  }
}
