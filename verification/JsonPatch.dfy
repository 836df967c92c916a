/** JSON Pointer (RFC 6901) and JSON Patch (section 4 of RFC 6902), on documents whose lists hold strings. */
module JsonPatch {
  import opened Decimal
  import opened JsonTree

  // ---------- Pointers ----------

  /** Section 3 of RFC 6901: '~' is written ~0 and '/' is written ~1. */
  function Escape(part: string): string {
    if part == "" then ""
    else (if part[0] == '~' then "~0" else if part[0] == '/' then "~1" else [part[0]]) + Escape(part[1..])
  }

  /** JsonPointer.from_parts(parts).path */
  function Pointer(parts: seq<string>): string {
    if parts == [] then "" else "/" + Escape(parts[0]) + Pointer(parts[1..])
  }

  /** The text up to the first '/', and the rest. */
  function UntilSlash(path: string): (r: (string, string))
    ensures path == r.0 + r.1 && '/' !in r.0 && (r.1 == "" || r.1[0] == '/')
  {
    if path == "" || path[0] == '/' then ("", path)
    else var (a, b) := UntilSlash(path[1..]); ([path[0]] + a, b)
  }

  /** Undoes Escape; None for a '~' that is not followed by 0 or 1. */
  function Unescape(token: string): Option<string> {
    if token == "" then Some("")
    else if token[0] != '~' then
      var rest := Unescape(token[1..]);
      if rest.None? then None else Some([token[0]] + rest.value)
    else if |token| < 2 || token[1] !in "01" then None
    else
      var rest := Unescape(token[2..]);
      if rest.None? then None else Some((if token[1] == '0' then "~" else "/") + rest.value)
  }

  /** Section 4 of RFC 6901: the reference tokens of a pointer, None if it is malformed. */
  function Parts(path: string): Option<seq<string>>
    decreases |path|
  {
    if path == "" then Some([])
    else if path[0] != '/' then None
    else
      var (token, rest) := UntilSlash(path[1..]);
      var first := Unescape(token);
      var others := Parts(rest);
      if first.None? || others.None? then None else Some([first.value] + others.value)
  }

  lemma {:induction false} UnescapeEscape(part: string)
    ensures Unescape(Escape(part)) == Some(part) && '/' !in Escape(part)
  {
    if part != "" {
      UnescapeEscape(part[1..]);
      var rest := Escape(part[1..]);
      var head := if part[0] == '~' then "~0" else if part[0] == '/' then "~1" else [part[0]];
      assert (head + rest)[|head|..] == rest;
      assert [part[0]] + part[1..] == part;
    }
  }

  lemma {:induction false} UntilSlashSplits(token: string, rest: string)
    requires '/' !in token && (rest == "" || rest[0] == '/')
    ensures UntilSlash(token + rest) == (token, rest)
  {
    if token == "" {
      assert token + rest == rest;
    } else {
      assert (token + rest)[1..] == token[1..] + rest;
      assert forall c | c in token[1..] :: c in token;
      UntilSlashSplits(token[1..], rest);
      assert [token[0]] + token[1..] == token;
    }
  }

  lemma PointerStarts(parts: seq<string>)
    ensures Pointer(parts) == "" || Pointer(parts)[0] == '/'
  {
  }

  lemma PartsOf(token: string, rest: string)
    requires '/' !in token && (rest == "" || rest[0] == '/')
    ensures Parts("/" + token + rest)
         == if Unescape(token).None?
           || Parts(rest).None? then None else Some([Unescape(token).value] + Parts(rest).value)
  {
    UntilSlashSplits(token, rest);
    var path := "/" + token + rest;
    assert path[1..] == token + rest;
  }

  /** A pointer built from parts names exactly those parts, slashes and tildes included. */
  lemma {:induction false} PointerRoundTrip(parts: seq<string>)
    ensures Parts(Pointer(parts)) == Some(parts)
  {
    if parts != [] {
      var token, rest := Escape(parts[0]), Pointer(parts[1..]);
      PointerRoundTrip(parts[1..]);
      UnescapeEscape(parts[0]);
      PointerStarts(parts[1..]);
      PartsOf(token, rest);
      assert Pointer(parts) == "/" + token + rest;
      assert [parts[0]] + parts[1..] == parts;
    }
  }

  predicate Plain(name: string) {
    '/' !in name && '~' !in name
  }

  lemma {:induction false} EscapePlain(name: string)
    ensures Escape(name) == name <==> Plain(name)
    ensures |Escape(name)| >= |name|
  {
    if name != "" {
      EscapePlain(name[1..]);
      assert name == [name[0]] + name[1..];
    }
  }

  // ---------- Patches ----------

  /** The operations of section 4 of RFC 6902 */
  datatype Op =
    | Add(path: string, value: Json)
    | Remove(path: string)
    | Replace(path: string, value: Json)
    | Move(from: string, path: string)
    | Copy(from: string, path: string)
    | Test(path: string, value: Json)

  type Patch = seq<Op>

  /** The position that a token names in a list of that length; "-" is the one after the last. */
  function Position(token: string, length: nat): Option<nat> {
    if token == "-" then Some(length)
    else if Canonical(token) then Some(Value(token))
    else None
  }

  /** The value at a place */
  function ValueAt(doc: Json, parts: seq<string>): Option<Json>
    decreases |parts|
  {
    if parts == [] then Some(doc)
    else match doc
      case Obj(m) => if parts[0] in m then ValueAt(m[parts[0]], parts[1..]) else None
      case Arr(items) =>
        var i := Position(parts[0], |items|);
        if |parts| == 1 && i.Some? && i.value < |items| then Some(Str(items[i.value])) else None
      case _ => None
  }

  /** Section 4.1: the parent must be there; a member is added or replaced, a list item is inserted. */
  function AddAt(doc: Json, parts: seq<string>, value: Json): Option<Json>
    decreases |parts|
  {
    if parts == [] then Some(value)
    else match doc
      case Obj(m) =>
        if |parts| == 1 then Some(Obj(m[parts[0] := value]))
        else if parts[0] !in m then None
        else
          var child := AddAt(m[parts[0]], parts[1..], value);
          if child.None? then None else Some(Obj(m[parts[0] := child.value]))
      case Arr(items) =>
        var i := Position(parts[0], |items|);
        if |parts| == 1 && value.Str? && i.Some? && i.value <= |items|
        then Some(Arr(items[..i.value] + [value.s] + items[i.value..])) else None
      case _ => None
  }

  /** Section 4.2: the target must be there. */
  function RemoveAt(doc: Json, parts: seq<string>): Option<Json>
    decreases |parts|
  {
    if parts == [] then None
    else match doc
      case Obj(m) =>
        if parts[0] !in m then None
        else if |parts| == 1 then Some(Obj(m - {parts[0]}))
        else
          var child := RemoveAt(m[parts[0]], parts[1..]);
          if child.None? then None else Some(Obj(m[parts[0] := child.value]))
      case Arr(items) =>
        var i := Position(parts[0], |items|);
        if |parts| == 1 && i.Some?
          && i.value < |items| then Some(Arr(items[..i.value] + items[i.value + 1..])) else None
      case _ => None
  }

  /** Section 4.3: a removal and an addition at the same place */
  function ReplaceAt(doc: Json, parts: seq<string>, value: Json): Option<Json> {
    if parts == [] then Some(value)
    else
      var without := RemoveAt(doc, parts);
      if without.None? then None else AddAt(without.value, parts, value)
  }

  /** Section 4.4: a removal at one place and an addition of the removed value at the other */
  function MoveTo(doc: Json, from: seq<string>, parts: seq<string>): Option<Json> {
    var value, without := ValueAt(doc, from), RemoveAt(doc, from);
    if value.None? || without.None? then None else AddAt(without.value, parts, value.value)
  }

  function ApplyOp(doc: Json, op: Op): Option<Json> {
    var parts := Parts(op.path);
    var from := if op.Move? || op.Copy? then Parts(op.from) else parts;
    if parts.None? || from.None? then None
    else match op
      case Add(_, value) => AddAt(doc, parts.value, value)
      case Remove(_) => RemoveAt(doc, parts.value)
      case Replace(_, value) => ReplaceAt(doc, parts.value, value)
      case Move(_, _) => MoveTo(doc, from.value, parts.value)
      case Copy(_, _) =>
        var value := ValueAt(doc, from.value);
        if value.None? then None else AddAt(doc, parts.value, value.value)
      case Test(_, value) => if ValueAt(doc, parts.value) == Some(value) then Some(doc) else None
  }

  /** patch.apply: the operations in order, or nothing if one of them fails. */
  function Apply(doc: Json, patch: Patch): Option<Json>
    decreases |patch|
  {
    if patch == [] then Some(doc)
    else
      var next := ApplyOp(doc, patch[0]);
      if next.None? then None else Apply(next.value, patch[1..])
  }

  lemma {:induction false} ApplyConcat(doc: Json, a: Patch, b: Patch)
    ensures Apply(doc, a + b) == if Apply(doc, a).None? then None else Apply(Apply(doc, a).value, b)
    decreases |a|
  {
    if a == [] {
      assert a + b == b;
    } else {
      assert (a + b)[1..] == a[1..] + b;
      var next := ApplyOp(doc, a[0]);
      if next.Some? { ApplyConcat(next.value, a[1..], b); }
    }
  }

  // ---------- What the operations mean for each other ----------

  /** A member that is added is there with its value, and removing it again gives back the document without it. */
  lemma {:induction false} AddedIsThere(doc: Json, parts: seq<string>, value: Json)
    requires parts != [] && AddAt(doc, parts, value).Some?
    requires var parent := ValueAt(doc, parts[..|parts| - 1]); parent.Some? && parent.value.Obj?
    ensures ValueAt(AddAt(doc, parts, value).value, parts) == Some(value)
    ensures RemoveAt(AddAt(doc, parts, value).value, parts) ==
      if ValueAt(doc, parts).Some? then RemoveAt(doc, parts) else Some(doc)
    ensures RemoveAt(AddAt(doc, parts, value).value, parts).Some?
    decreases |parts|
  {
    var k, rest := parts[0], parts[1..];
    assert [k] + rest == parts;
    if rest == [] {
      assert parts[..0] == [];
      assert ValueAt(doc, parts) == if k in doc.m then ValueAt(doc.m[k], rest) else None;
      if k !in doc.m {
        assert doc.m[k := value] - {k} == doc.m;
      } else {
        assert doc.m[k := value] - {k} == doc.m - {k};
      }
    } else {
      assert parts[..|parts| - 1][0] == k && parts[..|parts| - 1][1..] == rest[..|rest| - 1];
      AddedIsThere(doc.m[k], rest, value);
      var child := AddAt(doc.m[k], rest, value).value;
      var back := RemoveAt(child, rest);
      assert doc.m[k := child][k := back.value] == doc.m[k := back.value];
      assert doc.m[k := doc.m[k]] == doc.m;
    }
  }

  /** A list item that is inserted is at its position, which is that of the token or after the last item for "-";
      the items after it move on by one.
   */
  lemma InsertedIsThere(items: seq<string>, token: string, s: string)
    requires Position(token, |items|).Some? && Position(token, |items|).value <= |items|
    ensures
      var i := Position(token, |items|).value;
      var after := items[..i] + [s] + items[i..];
      && (i == if token == "-" then |items| else Value(token))
      && AddAt(Arr(items), [token], Str(s)) == Some(Arr(after))
      && (forall j | 0 <= j <= |items| :: after[j] == if j < i then items[j] else if j == i then s else items[j - 1])
  {
  }

  /** The item at a position goes, and the items after it move back by one. */
  lemma RemovedIsGone(items: seq<string>, i: nat)
    requires i < |items|
    ensures RemoveAt(Arr(items), [Digits(i)]) == Some(Arr(items[..i] + items[i + 1..]))
    ensures ValueAt(Arr(items), [Digits(i)]) == Some(Str(items[i]))
  {
    TokenOf(i, |items|);
  }

  lemma TokenOf(i: nat, length: nat)
    ensures Position(Digits(i), length) == Some(i)
  {
    ValueOfDigits(i);
    DigitsCanonical(i);
    assert Digits(i)[0] in Digits(i);
  }

  /** What is removed and added again with its value gives back the document. */
  lemma {:induction false} RemoveAddBack(doc: Json, parts: seq<string>)
    requires RemoveAt(doc, parts).Some?
    ensures ValueAt(doc, parts).Some?
    ensures AddAt(RemoveAt(doc, parts).value, parts, ValueAt(doc, parts).value) == Some(doc)
    decreases |parts|
  {
    var k, rest := parts[0], parts[1..];
    match doc
    case Obj(m) =>
      if |parts| == 1 {
        assert rest == [];
        assert (m - {k})[k := m[k]] == m;
      } else {
        RemoveAddBack(m[k], rest);
        assert m[k := RemoveAt(m[k], rest).value][k := m[k]] == m;
      }
    case Arr(items) =>
      var i := Position(k, |items|).value;
      var less := items[..i] + items[i + 1..];
      assert k != "-" && Position(k, |less|) == Some(i);
      assert less[..i] + [items[i]] + less[i..] == items;
  }

  /** Replacing, moving and copying a value to where it is changes nothing; so does a test, which fails for any other
      value. Where there is no value, all of them fail.
   */
  lemma StandingStill(doc: Json, path: string, value: Json)
    requires Parts(path).Some?
    ensures
      var here := ValueAt(doc, Parts(path).value);
      && (here.None? ==> ApplyOp(doc, Replace(path, value)) == None || Parts(path).value == [])
      && (here.Some? && RemoveAt(doc, Parts(path).value).Some? ==>
            ApplyOp(doc, Replace(path, here.value)) == Some(doc) == ApplyOp(doc, Move(path, path)))
      && (here.None? ==> ApplyOp(doc, Move(path, path)) == None == ApplyOp(doc, Copy(path, path)))
      && ApplyOp(doc, Test(path, value)) == (if here == Some(value) then Some(doc) else None)
  {
    var parts := Parts(path).value;
    if RemoveAt(doc, parts).Some? { RemoveAddBack(doc, parts); }
  }
}
