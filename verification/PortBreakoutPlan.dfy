/** The compiler that turns a diff of two configs into a mod_config payload. */
module PortBreakoutPlan {
  import opened JsonTree
  import opened ConfigStore

  /** jsondiff's symmetric syntax. A dict diff holds the children that changed and the keys
      under $insert and $delete; a list diff holds (index, item) pairs under the same two
      names; [old, new] replaces values that have nothing in common.
   */
  datatype Diff =
    | Node(changed: map<string, Diff>, ins: map<string, Json>, del: map<string, Json>)
    | Edit(added: seq<(nat, string)>, removed: seq<(nat, string)>)
    | Update(was: Json, becomes: Json)

  /** The items whose position is not in `gone`; the first item has position `at`. */
  function Without(items: seq<string>, gone: set<nat>, at: nat): seq<string> {
    if items == [] then []
    else (if at in gone then [] else [items[0]]) + Without(items[1..], gone, at + 1)
  }

  predicate ItemsOf(edits: seq<(nat, string)>, items: seq<string>) {
    forall e | e in edits :: e.0 < |items| && items[e.0] == e.1
  }

  function Positions(edits: seq<(nat, string)>): set<nat> {
    set e | e in edits :: e.0
  }

  /** d describes how inp differs from outp. The two differ wherever d says something. */
  ghost predicate IsDiff(d: Diff, inp: Json, outp: Json)
    decreases d
  {
    match d
    case Node(changed, ins, del) =>
      && inp.Obj? && outp.Obj?
      && changed.Keys <= inp.m.Keys && changed.Keys <= outp.m.Keys
      && (forall k | k in inp.m && k in outp.m && k !in changed :: inp.m[k] == outp.m[k])
      && (forall k | k in changed :: inp.m[k] != outp.m[k] && IsDiff(changed[k], inp.m[k], outp.m[k]))
      && ins == (map k | k in outp.m && k !in inp.m :: outp.m[k])
      && del == (map k | k in inp.m && k !in outp.m :: inp.m[k])
    case Edit(added, removed) =>
      && inp.Arr? && outp.Arr? && inp != outp
      && (added != [] || removed != [])
      && ItemsOf(added, outp.items) && ItemsOf(removed, inp.items)
      && Without(inp.items, Positions(removed), 0) == Without(outp.items, Positions(added), 0)
    case Update(was, becomes) =>
      was == inp && becomes == outp && inp != outp
  }

  /** How the recursion leaves: with an exception, with nothing to write, or with a payload. */
  datatype Outcome = Raise | Same | Load(payload: Json)

  function RemoveFirst(items: seq<string>, x: string): seq<string> {
    if items == [] then [] else if items[0] == x then items[1..] else [items[0]] + RemoveFirst(items[1..], x)
  }

  /** Iterating over [old, new] where new is a list compares the first two items of both with
      each other; nothing is ever written, but an index may run out.
   */
  predicate ListUpdateRaises(inp: Json, outp: seq<string>) {
    match inp
    case Arr(items) =>
      || |items| < 2 || |outp| < 2
      || (Lower(items[0]) != Lower(outp[0]) && (|items| > |items[0]| || |items| > |outp[0]|))
      || (Lower(items[1]) != Lower(outp[1]) && (|outp| > |items[1]| || |outp| > |outp[1]|))
    case Str(s) => |s| < 2 || |outp| < 2 || Lower([s[1]]) != Lower(outp[1])
    case _ => true
  }

  /** The list written for a list diff: the whole new list once for each of the two handlers. */
  function EditOutcome(added: bool, removed: bool, inp: seq<string>, outp: seq<string>): Outcome {
    if added && inp == [""] && "" !in outp then Raise
    else
      var first := if added then (if inp == [""] then RemoveFirst(outp, "") else outp) else [];
      var second := if removed then outp else [];
      if added || removed then Load(Arr(first + second)) else Same
  }

  /** What _deleteHandler leaves for one key of a dict. */
  function Deletion(v: Json): Json {
    if v.Arr? then Arr([]) else Null
  }

  /** The sanity checks on a dict diff: its keys are where they should be. */
  predicate KeysFit(d: Diff, inp: Json, outp: Json) {
    && d.Node? && inp.Obj? && outp.Obj?
    && d.changed.Keys <= inp.m.Keys && d.changed.Keys <= outp.m.Keys
    && d.ins.Keys <= outp.m.Keys && d.ins.Keys !! inp.m.Keys
    && d.del.Keys <= inp.m.Keys && d.del.Keys !! outp.m.Keys
  }

  function Compile(d: Diff, inp: Json, outp: Json): Outcome
    decreases d, 2
  {
    match d
    case Update(_, _) =>
      if outp.Obj? then Same
      else if outp.Str? then
        (if inp.Str? && Lower(inp.s) == Lower(outp.s) then Same else Raise)
      else if outp.Arr? && !ListUpdateRaises(inp, outp.items) then Same
      else Raise
    case Edit(added, removed) =>
      if inp.Arr? && outp.Arr? then EditOutcome(added != [], removed != [], inp.items, outp.items) else Raise
    case Node(changed, _, _) =>
      if !KeysFit(d, inp, outp) || exists k | k in changed :: Compile(changed[k], inp.m[k], outp.m[k]).Raise? then Raise
      else
        var content := Content(d, inp, outp);
        if content == map[] then Same else Load(Obj(content))
  }

  function FromChildren(d: Diff, inp: Json, outp: Json): map<string, Json>
    requires KeysFit(d, inp, outp)
    decreases d, 0
  {
    map k | k in d.changed && Compile(d.changed[k], inp.m[k], outp.m[k]).Load?
      :: Compile(d.changed[k], inp.m[k], outp.m[k]).payload
  }

  /** The keys that a dict diff writes, with their payloads. */
  function Content(d: Diff, inp: Json, outp: Json): map<string, Json>
    requires KeysFit(d, inp, outp)
    decreases d, 1
  {
    FromChildren(d, inp, outp)
    + (map k | k in d.del :: Deletion(inp.m[k]))
    + (map k | k in d.ins :: outp.m[k])
  }

  lemma ContentAt(d: Diff, inp: Json, outp: Json, k: string)
    requires d.Node? && IsDiff(d, inp, outp)
    ensures KeysFit(d, inp, outp)
    ensures Lookup(Content(d, inp, outp), k)
         == if k in d.changed then
              (var sub := Compile(d.changed[k], inp.m[k], outp.m[k]); if sub.Load? then Some(sub.payload) else None)
            else if k in d.del then Some(Deletion(inp.m[k]))
            else if k in d.ins then Some(outp.m[k])
            else None
  {
    var deep := FromChildren(d, inp, outp);
    assert k in deep ==> k in d.changed;
  }

  // ---------- When the compiler raises ----------

  /** The diff of the two values at the end of a path, None where the configs do not differ or the diff says
      everything further up.
   */
  function DiffAt(d: Diff, path: seq<string>): Option<Diff>
    decreases |path|
  {
    if path == [] then Some(d)
    else if d.Node? && path[0] in d.changed then DiffAt(d.changed[path[0]], path[1..])
    else None
  }

  /** What Python's value[i] gives for text and lists; None stands for the exception. */
  function ItemAt(v: Json, i: nat): Option<string> {
    match v
    case Arr(items) => if i < |items| then Some(items[i]) else None
    case Str(s) => if i < |s| then Some([s[i]]) else None
    case _ => None
  }

  /** Going through the parts of [old, new], where new is a list, an index runs out: one of the first two items is
      missing on one side; or such a pair differs by more than case, and the part at that position, if it is
      a list, is longer than one of the pair.
   */
  predicate RunsOut(inp: Json, outp: Json) {
    exists i | 0 <= i < 2 ::
      var part := if i == 0 then inp else outp;
      var was, now := ItemAt(inp, i), ItemAt(outp, i);
      || was.None? || now.None?
      || (part.Arr? && !SameButCase(was.value, now.value)
          && (|part.items| > |was.value| || |part.items| > |now.value|))
  }

  /** The two values cannot be compiled: [old, new] is not a difference in case and no dropped dict or list; or a
      list that was the placeholder list gains items and has no placeholder to take away.
   */
  predicate Stuck(d: Diff, inp: Json, outp: Json) {
    match d
    case Node(_, _, _) => false
    case Edit(added, _) => added != [] && inp == Arr([""]) && outp.Arr? && "" !in outp.items
    case Update(_, _) =>
      match outp
      case Obj(_) => false
      case Str(now) => !(inp.Str? && SameButCase(inp.s, now))
      case Arr(_) => RunsOut(inp, outp)
      case Null => true
  }

  predicate StuckAt(d: Diff, inp: Json, outp: Json, path: seq<string>) {
    var sub, was, now := DiffAt(d, path), At(Some(inp), path), At(Some(outp), path);
    sub.Some? && was.Some? && now.Some? && Stuck(sub.value, was.value, now.value)
  }

  lemma RunsOutIff(inp: Json, outp: seq<string>)
    ensures RunsOut(inp, Arr(outp)) <==> ListUpdateRaises(inp, outp)
  {
    var now := Arr(outp);
    if inp.Arr? && |inp.items| >= 2 && |outp| >= 2 {
      LowerIff(inp.items[0], outp[0]);
      LowerIff(inp.items[1], outp[1]);
      assert ItemAt(inp, 0) == Some(inp.items[0]) && ItemAt(inp, 1) == Some(inp.items[1]);
      assert ItemAt(now, 0) == Some(outp[0]) && ItemAt(now, 1) == Some(outp[1]);
    } else if inp.Str? && |inp.s| >= 2 && |outp| >= 2 {
      LowerIff([inp.s[1]], outp[1]);
      assert ItemAt(inp, 0) == Some([inp.s[0]]) && ItemAt(inp, 1) == Some([inp.s[1]]);
      assert ItemAt(now, 0) == Some(outp[0]) && ItemAt(now, 1) == Some(outp[1]);
    } else {
      assert ItemAt(inp, 1).None? || ItemAt(now, 1).None?;
    }
  }

  /** The compiler raises exactly if the diff has a path to two values that cannot be compiled. */
  lemma {:induction false} RaisesIff(d: Diff, inp: Json, outp: Json)
    requires IsDiff(d, inp, outp)
    ensures Compile(d, inp, outp).Raise? <==> exists path :: StuckAt(d, inp, outp, path)
    decreases d
  {
    var none: seq<string> := [];
    match d
    case Node(changed, _, _) =>
      forall k | k in changed
        ensures Compile(changed[k], inp.m[k], outp.m[k]).Raise? ==> exists path :: StuckAt(d, inp, outp, path)
      {
        RaisesIff(changed[k], inp.m[k], outp.m[k]);
        if Compile(changed[k], inp.m[k], outp.m[k]).Raise? {
          var rest :| StuckAt(changed[k], inp.m[k], outp.m[k], rest);
          assert ([k] + rest)[1..] == rest;
          assert StuckAt(d, inp, outp, [k] + rest);
        }
      }
      forall path | StuckAt(d, inp, outp, path) ensures Compile(d, inp, outp).Raise? {
        assert path != [];
        var k := path[0];
        RaisesIff(changed[k], inp.m[k], outp.m[k]);
        assert StuckAt(changed[k], inp.m[k], outp.m[k], path[1..]);
      }
    case _ =>
      LeafRaisesIff(d, inp, outp);
      if Stuck(d, inp, outp) { assert StuckAt(d, inp, outp, none); }
      forall path | StuckAt(d, inp, outp, path) ensures Stuck(d, inp, outp) {
        assert path == none;
      }
  }

  lemma LeafRaisesIff(d: Diff, inp: Json, outp: Json)
    requires !d.Node? && IsDiff(d, inp, outp)
    ensures Compile(d, inp, outp).Raise? <==> Stuck(d, inp, outp)
  {
    if d.Update? {
      if outp.Arr? { RunsOutIff(inp, outp.items); }
      if inp.Str? && outp.Str? { LowerIff(inp.s, outp.s); }
    }
  }

  /** If there is a plan, no text that differs by more than case goes unnoticed: it lies below a dict that the
      diff replaces as a whole.
   */
  lemma {:induction false} NoTextLost(d: Diff, inp: Json, outp: Json, path: seq<string>)
    requires IsDiff(d, inp, outp) && inp != outp && !exists p :: StuckAt(d, inp, outp, p)
    requires At(Some(inp), path).Some? && At(Some(inp), path).value.Str?
    requires At(Some(outp), path).Some? && At(Some(outp), path).value.Str?
    requires !SameButCase(At(Some(inp), path).value.s, At(Some(outp), path).value.s)
    ensures exists n: nat | n < |path| ::
      var sub, now := DiffAt(d, path[..n]), At(Some(outp), path[..n]);
      sub.Some? && sub.value.Update? && now.Some? && now.value.Obj?
    decreases |path|
  {
    var none: seq<string> := [];
    assert !StuckAt(d, inp, outp, none);
    if path == [] {
      assert false;
    } else {
      var k, rest := path[0], path[1..];
      GetSome(inp, k, rest);
      GetSome(outp, k, rest);
      if d.Update? {
        assert path[..0] == none && DiffAt(d, path[..0]) == Some(d) && At(Some(outp), path[..0]) == Some(outp);
        return;
      }
      assert d.Node? && k in d.changed;
      forall p ensures !StuckAt(d.changed[k], inp.m[k], outp.m[k], p) {
        assert ([k] + p)[1..] == p;
        assert !StuckAt(d, inp, outp, [k] + p);
      }
      NoTextLost(d.changed[k], inp.m[k], outp.m[k], rest);
      var n: nat :| n < |rest| &&
        var sub, now := DiffAt(d.changed[k], rest[..n]), At(Some(outp.m[k]), rest[..n]);
        sub.Some? && sub.value.Update? && now.Some? && now.value.Obj?;
      assert path[..n + 1][1..] == rest[..n];
      assert DiffAt(d, path[..n + 1]) == DiffAt(d.changed[k], rest[..n]);
    }
  }

  /** Config DB as it should be once `base` has moved to `outp`: outp as the store keeps it,
      except that a string that differs only in case keeps the value it had, and a list field
      that is gone stays behind as the store's empty list.
   */
  function Landed(base: Option<Json>, outp: Json, level: nat): Json
    decreases outp
  {
    match outp
    case Null => outp
    case Str(s) => if base.Some? && base.value.Str? && Lower(base.value.s) == Lower(s) then base.value else outp
    case Arr(_) => Stored(outp)
    case Obj(m) =>
      var left := if base.Some? && level == 2 then Kids(base.value) else map[];
      Obj(map k | k in m.Keys + left.Keys && (k in m || left[k].Arr?)
          :: if k in m then Landed(Get(base, k), m[k], level + 1) else Arr([""]))
  }

  /** `base` already is what the store would hold for `outp`. */
  predicate Settled(base: Json, outp: Json, level: nat)
    decreases outp
  {
    match outp
    case Null => base.Null?
    case Str(s) => base.Str? && Lower(base.s) == Lower(s)
    case Arr(_) => base == Stored(outp)
    case Obj(m) =>
      && base.Obj?
      && m.Keys <= base.m.Keys
      && (forall k | k in base.m && k !in m :: level == 2 && base.m[k] == Arr([""]))
      && forall k | k in m :: Settled(base.m[k], m[k], level + 1)
  }

  /** outp as it is meant: a list that grew from the store's empty list still holds the empty string that
      stood for it, and that is no item.
   */
  function Unpadded(inp: Json, outp: Json): Json
    decreases outp
  {
    match outp
    case Arr(items) => if inp == Arr([""]) && inp != outp && "" in items then Arr(RemoveFirst(items, "")) else outp
    case Obj(m) =>
      if inp.Obj? then Obj(map k | k in m :: if k in inp.m then Unpadded(inp.m[k], m[k]) else m[k]) else outp
    case _ => outp
  }

  /** The diffs the compiler gets right in a store that holds `base` for inp: no value is replaced by one that
      the store does not already stand for, no list both gains and loses items, and no string field goes away
      while its entry stays.
   */
  predicate Supported(d: Diff, base: Json, inp: Json, outp: Json, level: nat)
    decreases d
  {
    match d
    case Update(_, _) => !inp.Arr? && Settled(base, Unpadded(inp, outp), level)
    case Edit(added, removed) => added == [] || removed == []
    case Node(changed, ins, del) =>
      && base.Obj? && inp.Obj? && outp.Obj?
      && (level == 2 ==> forall k | k in del :: del[k].Arr?)
      && forall k | k in changed && k in base.m && k in inp.m && k in outp.m ::
           Supported(changed[k], base.m[k], inp.m[k], outp.m[k], level + 1)
  }

  lemma {:induction false} SettledTransitive(a: Json, b: Json, c: Json, level: nat)
    requires Settled(a, b, level) && Settled(b, c, level)
    ensures Settled(a, c, level)
    decreases c
  {
    if c.Obj? {
      forall k | k in c.m ensures Settled(a.m[k], c.m[k], level + 1) {
        SettledTransitive(a.m[k], b.m[k], c.m[k], level + 1);
      }
      forall k | k in a.m && k !in c.m ensures level == 2 && a.m[k] == Arr([""]) {
        if k in b.m {
          assert b.m[k] == Arr([""]);
          assert Settled(a.m[k], b.m[k], level + 1);
        }
      }
    }
  }

  /** `base` stands for `inp`, except for what is about to be deleted on the way to `outp`. */
  predicate Tracks(base: Json, inp: Json, outp: Json, level: nat)
    decreases inp
  {
    if inp.Obj? && outp.Obj? then
      && base.Obj?
      && (forall k | k in inp.m && k in outp.m :: k in base.m && Tracks(base.m[k], inp.m[k], outp.m[k], level + 1))
      && (level == 2 ==> forall k | k in inp.m && k !in outp.m :: k in base.m && Settled(base.m[k], inp.m[k], 3))
      && (forall k | k in base.m && k !in inp.m :: level == 2 && base.m[k] == Arr([""]))
    else Settled(base, inp, level)
  }

  lemma {:induction false} SettledTracks(base: Json, inp: Json, outp: Json, level: nat)
    requires Settled(base, inp, level)
    ensures Tracks(base, inp, outp, level)
    decreases inp
  {
    if inp.Obj? && outp.Obj? {
      forall k | k in inp.m && k in outp.m ensures Tracks(base.m[k], inp.m[k], outp.m[k], level + 1) {
        SettledTracks(base.m[k], inp.m[k], outp.m[k], level + 1);
      }
    }
  }

  lemma {:induction false} TracksSettles(base: Json, inp: Json, outp: Json, level: nat)
    requires Tracks(base, inp, outp, level) && Settled(inp, outp, level)
    ensures Settled(base, outp, level)
    decreases outp
  {
    if inp.Obj? && outp.Obj? {
      forall k | k in outp.m ensures Settled(base.m[k], outp.m[k], level + 1) {
        TracksSettles(base.m[k], inp.m[k], outp.m[k], level + 1);
      }
    } else {
      SettledTransitive(base, inp, outp, level);
    }
  }

  lemma {:induction false} TracksItself(base: Json, x: Json, level: nat)
    requires Tracks(base, x, x, level)
    ensures Settled(base, x, level)
    decreases x
  {
    if x.Obj? {
      forall k | k in x.m ensures Settled(base.m[k], x.m[k], level + 1) {
        TracksItself(base.m[k], x.m[k], level + 1);
      }
    }
  }

  /** A value that is already in place is its own landing, and only such a value is. */
  lemma {:induction false} LandedInPlace(base: Json, outp: Json, level: nat)
    requires Shape(outp, level) && NoEmptyList(base)
    ensures Landed(Some(base), outp, level) == base <==> Settled(base, outp, level)
    decreases outp
  {
    if outp.Obj? && base.Obj? {
      forall k | k in outp.m && k in base.m
        ensures Landed(Some(base.m[k]), outp.m[k], level + 1) == base.m[k] <==> Settled(base.m[k], outp.m[k], level + 1)
      {
        LandedInPlace(base.m[k], outp.m[k], level + 1);
      }
      var landed := Landed(Some(base), outp, level);
      if Settled(base, outp, level) {
        forall k: string ensures Lookup(landed.m, k) == Lookup(base.m, k) { LandedAt(Some(base), outp, level, k); }
        SameLookups(landed.m, base.m);
      } else if landed == base {
        forall k: string ensures Lookup(landed.m, k) == Lookup(base.m, k) { }
        forall k: string ensures k in outp.m ==> k in base.m && Settled(base.m[k], outp.m[k], level + 1) {
          LandedAt(Some(base), outp, level, k);
        }
        forall k: string ensures k in base.m && k !in outp.m ==> level == 2 && base.m[k] == Arr([""]) {
          LandedAt(Some(base), outp, level, k);
        }
      }
    }
  }

  /** Writing a whole new value puts it there as the store keeps it. */
  lemma {:induction false} WriteNew(outp: Json, level: nat)
    requires Shape(outp, level)
    ensures Payload(outp, level) || level == 0
    ensures Write(None, outp, level) == Some(Landed(None, outp, level))
    decreases outp
  {
    if outp.Obj? {
      forall k | k in outp.m
        ensures Payload(outp.m[k], level + 1)
        ensures Write(None, outp.m[k], level + 1) == Some(Landed(None, outp.m[k], level + 1))
      {
        WriteNew(outp.m[k], level + 1);
      }
      assert Merge(None, outp, level) == Landed(None, outp, level).m;
    }
  }

  lemma LandedAt(base: Option<Json>, outp: Json, level: nat, k: string)
    requires outp.Obj?
    ensures Lookup(Landed(base, outp, level).m, k)
         == if k in outp.m then Some(Landed(Get(base, k), outp.m[k], level + 1))
            else if level == 2 && Get(base, k).Some? && Get(base, k).value.Arr? then Some(Arr([""]))
            else None
  {
  }

  /** The compiler's answer for a node, read as an assignment, lands it where it should be. */
  predicate Lands(o: Outcome, base: Json, outp: Json, level: nat) {
    match o
    case Raise => false
    case Same => Landed(Some(base), outp, level) == base
    case Load(p) => Write(Some(base), p, level) == Some(Landed(Some(base), outp, level))
  }

  /** What Tracks says about one key. */
  predicate TracksKey(base: Json, inp: Json, outp: Json, level: nat, k: string)
    requires base.Obj? && inp.Obj? && outp.Obj?
  {
    && (k in inp.m && k in outp.m ==>
      k in base.m && (inp.m[k] == outp.m[k] ==> Settled(base.m[k], outp.m[k], level + 1)))
    && (k in inp.m && k !in outp.m && level == 2 ==> k in base.m && Settled(base.m[k], inp.m[k], 3))
    && (k in base.m && k !in inp.m ==> level == 2 && base.m[k] == Arr([""]))
  }

  lemma TracksAt(base: Json, inp: Json, outp: Json, level: nat, k: string)
    requires inp.Obj? && outp.Obj? && Tracks(base, inp, outp, level)
    ensures base.Obj? && TracksKey(base, inp, outp, level, k)
  {
    if k in inp.m && k in outp.m && inp.m[k] == outp.m[k] {
      TracksItself(base.m[k], outp.m[k], level + 1);
    }
  }

  lemma {:induction false} UnpaddedItself(x: Json)
    ensures Unpadded(x, x) == x
  {
    if x.Obj? {
      forall k | k in x.m ensures Unpadded(x.m[k], x.m[k]) == x.m[k] {
        UnpaddedItself(x.m[k]);
      }
      assert Unpadded(x, x).m == x.m;
    }
  }

  lemma {:induction false} UnpaddedShape(inp: Json, outp: Json, level: nat)
    requires Shape(outp, level)
    ensures Shape(Unpadded(inp, outp), level)
    decreases outp
  {
    if outp.Obj? && inp.Obj? {
      forall k | k in outp.m ensures Shape(Unpadded(inp, outp).m[k], level + 1) {
        if k in inp.m { UnpaddedShape(inp.m[k], outp.m[k], level + 1); }
      }
      assert Unpadded(inp, outp).m.Keys == outp.m.Keys;
    }
  }

  lemma {:induction false} TracksUnpadded(base: Json, inp: Json, outp: Json, level: nat)
    requires Tracks(base, inp, outp, level)
    ensures Tracks(base, inp, Unpadded(inp, outp), level)
    decreases outp
  {
    if inp.Obj? && outp.Obj? {
      forall k | k in inp.m && k in outp.m ensures Tracks(base.m[k], inp.m[k], Unpadded(inp, outp).m[k], level + 1) {
        TracksUnpadded(base.m[k], inp.m[k], outp.m[k], level + 1);
      }
    }
  }

  /** The target of a dict has its keys, and its values wherever nothing changed. */
  lemma UnpaddedKeys(inp: Json, outp: Json)
    requires inp.Obj? && outp.Obj?
    ensures Unpadded(inp, outp).Obj? && Unpadded(inp, outp).m.Keys == outp.m.Keys
    ensures forall k | k in outp.m && (k in inp.m ==> inp.m[k] == outp.m[k]) :: Unpadded(inp, outp).m[k] == outp.m[k]
  {
    forall k | k in outp.m && (k in inp.m ==> inp.m[k] == outp.m[k]) ensures Unpadded(inp, outp).m[k] == outp.m[k] {
      if k in inp.m { UnpaddedItself(outp.m[k]); }
    }
  }

  /** One key of a dict, given that the compiler gets its child right. */
  lemma ChildLands(content: map<string, Json>, sub: Option<Outcome>, base: Json, inp: Json, outp: Json, to: Json,
                   level: nat, k: string)
    requires base.Obj? && inp.Obj? && outp.Obj? && to.Obj? && to.m.Keys == outp.m.Keys && level < 3
    requires TracksKey(base, inp, outp, level, k) && NoEmptyList(base)
    requires k in outp.m ==> Shape(outp.m[k], level + 1)
    requires k in inp.m ==> Shape(inp.m[k], level + 1)
    requires sub.Some? <==> k in inp.m && k in outp.m && inp.m[k] != outp.m[k]
    requires sub.None? && k in outp.m ==> to.m[k] == outp.m[k]
    requires sub.Some? ==> Lands(sub.value, base.m[k], to.m[k], level + 1)
    requires level == 2 && k in inp.m && k !in outp.m ==> inp.m[k].Arr?
    requires Lookup(content, k)
          == if sub.Some? then (if sub.value.Load? then Some(sub.value.payload) else None)
             else if k in inp.m && k !in outp.m then Some(Deletion(inp.m[k]))
             else if k in outp.m && k !in inp.m then Some(outp.m[k])
             else None
    ensures Lookup(Merge(Some(base), Obj(content), level), k) == Lookup(Landed(Some(base), to, level).m, k)
  {
    MergeAt(Some(base), Obj(content), level, k);
    LandedAt(Some(base), to, level, k);
    if k in inp.m && k in outp.m && sub.None? {
      LandedInPlace(base.m[k], outp.m[k], level + 1);
    } else if k in outp.m && k !in inp.m {
      WriteNew(outp.m[k], level + 1);
    }
  }

  /** Loading the payload takes Config DB to the new config, for every supported diff and from
      every state that stands for the old config.
   */
  lemma {:induction false} PayloadLands(d: Diff, base: Json, inp: Json, outp: Json, level: nat)
    requires IsDiff(d, inp, outp)
    requires Shape(inp, level) && Shape(outp, level)
    requires Tracks(base, inp, outp, level) && NoEmptyList(base)
    requires Supported(d, base, inp, outp, level)
    ensures Lands(Compile(d, inp, outp), base, Unpadded(inp, outp), level)
    decreases d
  {
    if d.Update? {
      UpdateLands(d, base, inp, outp, level);
    } else if d.Edit? {
      EditLands(d, base, inp, outp, level);
    } else {
      forall k | k in d.changed
        ensures Lands(Compile(d.changed[k], inp.m[k], outp.m[k]), base.m[k], Unpadded(inp.m[k], outp.m[k]), level + 1)
      {
        PayloadLands(d.changed[k], base.m[k], inp.m[k], outp.m[k], level + 1);
      }
      ContentLands(d, base, inp, outp, level);
    }
  }

  lemma UpdateLands(d: Diff, base: Json, inp: Json, outp: Json, level: nat)
    requires d.Update? && IsDiff(d, inp, outp) && Supported(d, base, inp, outp, level)
    requires Shape(outp, level) && Tracks(base, inp, outp, level) && NoEmptyList(base)
    ensures Lands(Compile(d, inp, outp), base, Unpadded(inp, outp), level)
  {
    UnpaddedShape(inp, outp, level);
    LandedInPlace(base, Unpadded(inp, outp), level);
  }

  lemma {:induction false} WithoutNone(items: seq<string>, at: nat)
    ensures Without(items, {}, at) == items
  {
    if items != [] { WithoutNone(items[1..], at + 1); }
  }

  lemma {:induction false} WithoutAmong(items: seq<string>, gone: set<nat>, at: nat)
    ensures forall x | x in Without(items, gone, at) :: x in items
  {
    if items != [] { WithoutAmong(items[1..], gone, at + 1); }
  }

  /** A list that grows from [""] keeps the "", and one that shrinks from it does not. */
  lemma PlaceholderStays(d: Diff, inp: Json, outp: Json)
    requires d.Edit? && IsDiff(d, inp, outp) && inp == Arr([""]) && (d.added == [] || d.removed == [])
    ensures "" in outp.items <==> d.removed == []
  {
    if d.removed == [] {
      WithoutNone(inp.items, 0);
      WithoutAmong(outp.items, Positions(d.added), 0);
    } else {
      WithoutNone(outp.items, 0);
      assert d.removed[0] in d.removed && 0 in Positions(d.removed);
      assert Without(inp.items[1..], Positions(d.removed), 1) == [];
    }
  }

  lemma EditLands(d: Diff, base: Json, inp: Json, outp: Json, level: nat)
    requires d.Edit? && IsDiff(d, inp, outp) && Supported(d, base, inp, outp, level)
    ensures Lands(Compile(d, inp, outp), base, Unpadded(inp, outp), level)
  {
    var meant := Unpadded(inp, outp);
    if inp == Arr([""]) {
      PlaceholderStays(d, inp, outp);
    }
    assert meant.items + [] == meant.items && [] + meant.items == meant.items;
  }

  lemma ContentLands(d: Diff, base: Json, inp: Json, outp: Json, level: nat)
    requires d.Node? && IsDiff(d, inp, outp) && KeysFit(d, inp, outp)
    requires Shape(inp, level) && Shape(outp, level)
    requires Tracks(base, inp, outp, level) && NoEmptyList(base)
    requires level == 2 ==> forall k | k in d.del :: d.del[k].Arr?
    requires forall k | k in d.changed ::
      Lands(Compile(d.changed[k], inp.m[k], outp.m[k]), base.m[k], Unpadded(inp.m[k], outp.m[k]), level + 1)
    ensures Lands(Compile(d, inp, outp), base, Unpadded(inp, outp), level)
  {
    var to := Unpadded(inp, outp);
    UnpaddedKeys(inp, outp);
    var content := Content(d, inp, outp);
    var written := Merge(Some(base), Obj(content), level);
    var landed := Landed(Some(base), to, level).m;
    forall k: string ensures Lookup(written, k) == Lookup(landed, k) {
      ContentAt(d, inp, outp, k);
      TracksAt(base, inp, outp, level, k);
      var sub := if k in d.changed then Some(Compile(d.changed[k], inp.m[k], outp.m[k])) else None;
      ChildLands(content, sub, base, inp, outp, to, level, k);
    }
    SameLookups(written, landed);
    MergeNothing(base, level);
    UnpaddedShape(inp, outp, level);
    WrittenIsWhole(Compile(d, inp, outp), content, base, to, level);
  }

  lemma WrittenIsWhole(o: Outcome, content: map<string, Json>, base: Json, outp: Json, level: nat)
    requires base.Obj? && outp.Obj? && Shape(outp, level)
    requires o == if content == map[] then Same else Load(Obj(content))
    requires Merge(Some(base), Obj(content), level) == Landed(Some(base), outp, level).m
    requires Merge(Some(base), Obj(map[]), level) == base.m
    ensures Lands(o, base, outp, level)
  {
    if level == 1 {
      var k :| k in outp.m;
      LandedAt(Some(base), outp, level, k);
    }
  }

  /** Outside the supported diffs the compiler raises, or its payload does not lead to the new config. */
  lemma {:induction false} UnsupportedMisses(d: Diff, base: Json, inp: Json, outp: Json, level: nat)
    requires IsDiff(d, inp, outp)
    requires Shape(inp, level) && Shape(outp, level)
    requires Tracks(base, inp, outp, level) && NoEmptyList(base)
    requires !Supported(d, base, inp, outp, level)
    ensures !Lands(Compile(d, inp, outp), base, Unpadded(inp, outp), level)
    decreases d
  {
    if d.Update? {
      UpdateMisses(d, base, inp, outp, level);
    } else if d.Edit? {
      EditMisses(d, base, inp, outp, level);
    } else {
      var k := UnsupportedChild(d, base, inp, outp, level);
      if k in d.changed {
        UnsupportedMisses(d.changed[k], base.m[k], inp.m[k], outp.m[k], level + 1);
      }
      NodeMisses(d, base, inp, outp, level, k);
    }
  }

  lemma UnsupportedChild(d: Diff, base: Json, inp: Json, outp: Json, level: nat) returns (k: string)
    requires d.Node? && IsDiff(d, inp, outp) && !Supported(d, base, inp, outp, level)
    requires Tracks(base, inp, outp, level)
    ensures KeysFit(d, inp, outp)
    ensures || (level == 2 && k in d.del && !d.del[k].Arr? && k !in d.changed)
            || (k in d.changed && !Supported(d.changed[k], base.m[k], inp.m[k], outp.m[k], level + 1))
  {
    if level == 2 && exists k :: k in d.del && !d.del[k].Arr? {
      k :| k in d.del && !d.del[k].Arr?;
    } else {
      k :| k in d.changed && !Supported(d.changed[k], base.m[k], inp.m[k], outp.m[k], level + 1);
    }
  }

  /** A dropped replacement leaves the old value, which is not the new one. */
  lemma UpdateMisses(d: Diff, base: Json, inp: Json, outp: Json, level: nat)
    requires d.Update? && IsDiff(d, inp, outp) && !Supported(d, base, inp, outp, level)
    requires Shape(outp, level) && Tracks(base, inp, outp, level) && NoEmptyList(base)
    ensures !Lands(Compile(d, inp, outp), base, Unpadded(inp, outp), level)
  {
    UnpaddedShape(inp, outp, level);
    LandedInPlace(base, Unpadded(inp, outp), level);
  }

  /** A list that gains and loses items is written twice over, or raises for its missing placeholder. */
  lemma EditMisses(d: Diff, base: Json, inp: Json, outp: Json, level: nat)
    requires d.Edit? && IsDiff(d, inp, outp) && !Supported(d, base, inp, outp, level)
    ensures !Lands(Compile(d, inp, outp), base, Unpadded(inp, outp), level)
  {
    assert d.added[0] in d.added;
    if Compile(d, inp, outp).Load? {
      TwiceIsLonger(inp, outp);
    }
  }

  lemma TwiceIsLonger(inp: Json, outp: Json)
    requires inp.Arr? && outp.Arr? && inp != outp && outp.items != []
    requires EditOutcome(true, true, inp.items, outp.items).Load?
    ensures EditOutcome(true, true, inp.items, outp.items).payload != Unpadded(inp, outp) == Stored(Unpadded(inp, outp))
  {
    var meant := Unpadded(inp, outp);
    assert EditOutcome(true, true, inp.items, outp.items).payload == Arr(meant.items + outp.items);
    if inp == Arr([""]) {
      RemoveFirstShorter(outp.items, "");
      assert outp.items != [""] && outp.items == [outp.items[0]] + outp.items[1..];
    }
  }

  /** One key that goes wrong is enough. */
  lemma NodeMisses(d: Diff, base: Json, inp: Json, outp: Json, level: nat, k: string)
    requires d.Node? && IsDiff(d, inp, outp) && KeysFit(d, inp, outp)
    requires Tracks(base, inp, outp, level)
    requires
      || (level == 2 && k in d.del && !d.del[k].Arr?)
      || (k in d.changed
          && !Lands(Compile(d.changed[k], inp.m[k], outp.m[k]), base.m[k], Unpadded(inp.m[k], outp.m[k]), level + 1))
    ensures !Lands(Compile(d, inp, outp), base, Unpadded(inp, outp), level)
  {
    var to := Unpadded(inp, outp);
    UnpaddedKeys(inp, outp);
    var content := Content(d, inp, outp);
    ContentAt(d, inp, outp, k);
    TracksAt(base, inp, outp, level, k);
    MergeAt(Some(base), Obj(content), level, k);
    LandedAt(Some(base), to, level, k);
    MergeNothing(base, level);
    if !Compile(d, inp, outp).Raise? {
      assert Lookup(Merge(Some(base), Obj(content), level), k) != Lookup(Landed(Some(base), to, level).m, k);
      DifferentMergeMisses(Compile(d, inp, outp), content, base, to, level);
    }
  }

  lemma DifferentMergeMisses(o: Outcome, content: map<string, Json>, base: Json, outp: Json, level: nat)
    requires base.Obj? && outp.Obj?
    requires o == if content == map[] then Same else Load(Obj(content))
    requires Merge(Some(base), Obj(content), level) != Landed(Some(base), outp, level).m
    requires Merge(Some(base), Obj(map[]), level) == base.m
    ensures !Lands(o, base, outp, level)
  {
  }

  lemma RemoveFirstShorter(items: seq<string>, x: string)
    ensures x in items ==> |RemoveFirst(items, x)| == |items| - 1
  {
  }

  /** What _createConfigToLoad hands to mod_config: an empty document when nothing is to be written. */
  function ToLoad(o: Outcome): Json {
    if o.Load? then o.payload else Obj(map[])
  }

  /** From every state that stands for the old config, the compiled payload takes the store to the new one
      exactly when the diff is supported there.
   */
  lemma PayloadLandsIffSupported(d: Diff, base: Json, inp: Json, outp: Json)
    requires IsDiff(d, inp, outp) && Shape(inp, 0) && Shape(outp, 0)
    requires Tracks(base, inp, outp, 0) && NoEmptyList(base)
    ensures Supported(d, base, inp, outp, 0) <==>
      && !Compile(d, inp, outp).Raise?
      && Modified(base, ToLoad(Compile(d, inp, outp))) == Landed(Some(base), Unpadded(inp, outp), 0)
  {
    MergeNothing(base, 0);
    PayloadShaped(d, inp, outp, 0);
    if Supported(d, base, inp, outp, 0) {
      PayloadLands(d, base, inp, outp, 0);
    } else {
      UnsupportedMisses(d, base, inp, outp, 0);
    }
  }

  /** A diff that is supported where the store holds the old config itself is supported in every state that
      stands for it.
   */
  lemma {:induction false} SupportedAnywhere(d: Diff, base: Json, inp: Json, outp: Json, level: nat)
    requires IsDiff(d, inp, outp) && Tracks(base, inp, outp, level) && Supported(d, inp, inp, outp, level)
    ensures Supported(d, base, inp, outp, level)
    decreases d
  {
    match d
    case Update(_, _) =>
      TracksUnpadded(base, inp, outp, level);
      TracksSettles(base, inp, Unpadded(inp, outp), level);
    case Edit(_, _) =>
    case Node(changed, _, _) =>
      forall k | k in changed ensures Supported(changed[k], base.m[k], inp.m[k], outp.m[k], level + 1) {
        SupportedAnywhere(changed[k], base.m[k], inp.m[k], outp.m[k], level + 1);
      }
  }

  /** Everything in the payload is something mod_config accepts. */
  lemma {:induction false} PayloadShaped(d: Diff, inp: Json, outp: Json, level: nat)
    requires IsDiff(d, inp, outp) && Shape(inp, level) && Shape(outp, level)
    ensures Shaped(Compile(d, inp, outp), level)
    decreases d
  {
    if d.Node? {
      forall k | k in d.changed ensures Shaped(Compile(d.changed[k], inp.m[k], outp.m[k]), level + 1) {
        PayloadShaped(d.changed[k], inp.m[k], outp.m[k], level + 1);
      }
      ContentShaped(d, inp, outp, level);
      if Compile(d, inp, outp).Load? { NodeLoads(d, inp, outp); }
    } else {
      LeafShaped(d, inp, outp, level);
    }
  }

  predicate Shaped(o: Outcome, level: nat) {
    o.Load? ==> Payload(o.payload, level) && (level < 3 ==> o.payload.Obj?)
  }

  lemma NodeLoads(d: Diff, inp: Json, outp: Json)
    requires d.Node? && Compile(d, inp, outp).Load?
    ensures KeysFit(d, inp, outp) && Compile(d, inp, outp).payload == Obj(Content(d, inp, outp))
  {
  }

  lemma LeafShaped(d: Diff, inp: Json, outp: Json, level: nat)
    requires !d.Node? && IsDiff(d, inp, outp) && Shape(outp, level)
    ensures Shaped(Compile(d, inp, outp), level)
  {
  }

  lemma ContentShaped(d: Diff, inp: Json, outp: Json, level: nat)
    requires d.Node? && IsDiff(d, inp, outp) && KeysFit(d, inp, outp) && Shape(inp, level) && Shape(outp, level)
    requires forall k | k in d.changed :: Shaped(Compile(d.changed[k], inp.m[k], outp.m[k]), level + 1)
    ensures Payload(Obj(Content(d, inp, outp)), level)
  {
    var content := Content(d, inp, outp);
    forall k | k in content ensures Payload(content[k], level + 1) {
      ContentAt(d, inp, outp, k);
      if k in d.changed {
        assert Lookup(content, k) == Some(content[k]);
      } else if k in d.ins {
        WriteNew(outp.m[k], level + 1);
      } else {
        assert Shape(inp.m[k], level + 1);
      }
    }
  }

  /** p mentions only keys at which the two configs differ, all the way down. */
  predicate OnlyDiffs(p: Json, inp: Json, outp: Json)
    decreases p
  {
    && inp != outp
    && (p.Obj? && inp.Obj? && outp.Obj? ==>
          forall k | k in p.m :: Lookup(inp.m, k) != Lookup(outp.m, k)
            && (k in inp.m && k in outp.m ==> OnlyDiffs(p.m[k], inp.m[k], outp.m[k])))
  }

  /** Subtrees that do not differ never appear in the payload. */
  lemma {:induction false} PayloadMinimal(d: Diff, inp: Json, outp: Json)
    requires IsDiff(d, inp, outp)
    ensures Compile(d, inp, outp).Load? ==> OnlyDiffs(Compile(d, inp, outp).payload, inp, outp)
    decreases d
  {
    if d.Node? {
      var content := Content(d, inp, outp);
      forall k | k in content
        ensures Lookup(inp.m, k) != Lookup(outp.m, k)
        ensures k in inp.m && k in outp.m ==> OnlyDiffs(content[k], inp.m[k], outp.m[k])
      {
        ContentAt(d, inp, outp, k);
        if k in d.changed {
          PayloadMinimal(d.changed[k], inp.m[k], outp.m[k]);
        }
      }
      if content != map[] {
        var k :| k in content;
        assert Lookup(inp.m, k) != Lookup(outp.m, k);
      }
    }
  }

  /** _insertHandler on a dict; false stands for the exception. */
  method InsertHandler(ins: map<string, Json>, inp: Json, outp: Json, config0: map<string, Json>)
    returns (ok: bool, config: map<string, Json>)
    requires inp.Obj? && outp.Obj?
    ensures ok <==> ins.Keys <= outp.m.Keys && ins.Keys !! inp.m.Keys
    ensures ok ==> config == config0 + map k | k in ins :: outp.m[k]
  {
    config := config0;
    var keys := ins.Keys;
    while keys != {}
      invariant keys <= ins.Keys
      invariant ins.Keys - keys <= outp.m.Keys && (ins.Keys - keys) !! inp.m.Keys
      invariant config == config0 + map k | k in ins && k !in keys :: outp.m[k]
    {
      var key :| key in keys;
      if key in inp.m || key !in outp.m {
        return false, config;
      }
      config := config[key := outp.m[key]];
      keys := keys - {key};
    }
    ok := true;
  }

  /** _deleteHandler on a dict. */
  method DeleteHandler(del: map<string, Json>, inp: Json, outp: Json, config0: map<string, Json>)
    returns (ok: bool, config: map<string, Json>)
    requires inp.Obj? && outp.Obj?
    ensures ok <==> del.Keys <= inp.m.Keys && del.Keys !! outp.m.Keys
    ensures ok ==> config == config0 + map k | k in del :: Deletion(inp.m[k])
  {
    config := config0;
    var keys := del.Keys;
    while keys != {}
      invariant keys <= del.Keys
      invariant del.Keys - keys <= inp.m.Keys && (del.Keys - keys) !! outp.m.Keys
      invariant config == config0 + map k | k in del && k !in keys :: Deletion(inp.m[k])
    {
      var key :| key in keys;
      if key !in inp.m || key in outp.m {
        return false, config;
      }
      config := config[key := if inp.m[key].Arr? then Arr([]) else Null];
      keys := keys - {key};
    }
    ok := true;
  }

  /** The children that changed, visited in any order; None stands for the exception. */
  method CreateChildren(d: Diff, inp: Json, outp: Json) returns (config: Option<map<string, Json>>)
    requires d.Node? && IsDiff(d, inp, outp)
    ensures config.None? <==> exists k | k in d.changed :: Compile(d.changed[k], inp.m[k], outp.m[k]).Raise?
    ensures config.Some? ==> config.value == FromChildren(d, inp, outp)
    decreases d, 0
  {
    var filled: map<string, Json> := map[];
    var todo := d.changed.Keys;
    while todo != {}
      invariant todo <= d.changed.Keys
      invariant forall k | k in d.changed && k !in todo :: !Compile(d.changed[k], inp.m[k], outp.m[k]).Raise?
      invariant filled == map k | k in d.changed && k !in todo && Compile(d.changed[k], inp.m[k], outp.m[k]).Load?
                                :: Compile(d.changed[k], inp.m[k], outp.m[k]).payload
    {
      var key :| key in todo;
      var sub := RecurCreateConfig(d.changed[key], inp.m[key], outp.m[key]);
      if sub.Raise? {
        return None;
      }
      if sub.Load? {
        filled := filled[key := sub.payload];
      }
      todo := todo - {key};
    }
    config := Some(filled);
  }

  /** _recurCreateConfig, which fills `config` from the diff of one node. */
  method RecurCreateConfig(d: Diff, inp: Json, outp: Json) returns (o: Outcome)
    requires IsDiff(d, inp, outp)
    ensures o == Compile(d, inp, outp)
    decreases d, 2
  {
    if d.Node? {
      o := NodeConfig(d, inp, outp);
    } else if d.Edit? {
      o := EditConfig(d, inp, outp);
    } else if outp.Obj? || (outp.Str? && inp.Str? && Lower(inp.s) == Lower(outp.s)) {
      o := Same;
    } else if !outp.Arr? || ListUpdateRaises(inp, outp.items) {
      o := Raise;
    } else {
      o := Same;
    }
  }

  /** The two handlers on a list: each extends `config` with the whole new list. */
  method EditConfig(d: Diff, inp: Json, outp: Json) returns (o: Outcome)
    requires d.Edit? && IsDiff(d, inp, outp)
    ensures o == Compile(d, inp, outp)
  {
    var config: seq<string> := [];
    if d.added != [] {
      config := config + outp.items;
      assert config == outp.items;
      if inp.items == [""] {
        if "" !in config {
          return Raise;
        }
        config := RemoveFirst(config, "");
      }
      assert config + [] == config;
    }
    if d.removed != [] {
      config := config + outp.items;
    }
    o := Load(Arr(config));
  }

  lemma SwapParts(a: map<string, Json>, b: map<string, Json>, c: map<string, Json>)
    requires b.Keys !! c.Keys
    ensures a + b + c == a + c + b
  {
  }

  method NodeConfig(d: Diff, inp: Json, outp: Json) returns (o: Outcome)
    requires d.Node? && IsDiff(d, inp, outp)
    ensures o == Compile(d, inp, outp)
    decreases d, 1
  {
    assert KeysFit(d, inp, outp);
    var children := CreateChildren(d, inp, outp);
    if children.None? {
      return Raise;
    }
    var added, withInserts := InsertHandler(d.ins, inp, outp, children.value);
    var removed, config := DeleteHandler(d.del, inp, outp, withInserts);
    if !added || !removed {
      return Raise;
    }
    SwapParts(children.value, map k | k in d.ins :: outp.m[k], map k | k in d.del :: Deletion(inp.m[k]));
    assert config == Content(d, inp, outp);
    o := if config == map[] then Same else Load(Obj(config));
  }

  /** From each state that stands for the old config, the plan lands exactly if the diff is supported there. */
  ghost predicate ExactPlan(d: Diff, inp: Json, outp: Json, plan: Option<Json>) {
    forall base | Tracks(base, inp, outp, 0) && NoEmptyList(base) ::
      Supported(d, base, inp, outp, 0) <==>
        plan.Some? && Modified(base, plan.value) == Landed(Some(base), Unpadded(inp, outp), 0)
  }

  /** _createConfigToLoad; None stands for the exception. */
  method CreateConfigToLoad(d: Diff, inp: Json, outp: Json) returns (configToLoad: Option<Json>)
    requires IsDiff(d, inp, outp)
    ensures configToLoad == Planned(d, inp, outp)
    ensures configToLoad.None? <==> exists path :: StuckAt(d, inp, outp, path)
    ensures inp.Obj? && outp.Obj? && configToLoad.Some? ==> configToLoad.value.Obj?
    ensures Shape(inp, 0) && Shape(outp, 0) ==> ExactPlan(d, inp, outp, configToLoad)
    ensures configToLoad.Some? && configToLoad.value != Obj(map[]) ==> OnlyDiffs(configToLoad.value, inp, outp)
  {
    var o := RecurCreateConfig(d, inp, outp);
    if Shape(inp, 0) && Shape(outp, 0) {
      forall base | Tracks(base, inp, outp, 0) && NoEmptyList(base)
        ensures Supported(d, base, inp, outp, 0) <==>
          !o.Raise? && Modified(base, ToLoad(o)) == Landed(Some(base), Unpadded(inp, outp), 0)
      {
        PayloadLandsIffSupported(d, base, inp, outp);
      }
    }
    PayloadMinimal(d, inp, outp);
    RaisesIff(d, inp, outp);
    configToLoad := if o.Raise? then None else Some(ToLoad(o));
  }

  function Planned(d: Diff, inp: Json, outp: Json): Option<Json> {
    var o := Compile(d, inp, outp);
    if o.Raise? then None else Some(ToLoad(o))
  }

  /** Where Config DB lands stands for the config that was asked for. */
  lemma {:induction false} LandedSettles(base: Option<Json>, outp: Json, level: nat)
    requires Shape(outp, level)
    ensures Settled(Landed(base, outp, level), outp, level) && NoEmptyList(Landed(base, outp, level))
    decreases outp
  {
    if outp.Obj? {
      forall k | k in outp.m
        ensures Settled(Landed(Get(base, k), outp.m[k], level + 1), outp.m[k], level + 1)
        ensures NoEmptyList(Landed(Get(base, k), outp.m[k], level + 1))
      {
        LandedSettles(Get(base, k), outp.m[k], level + 1);
      }
    }
  }
}
