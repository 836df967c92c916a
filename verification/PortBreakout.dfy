/** Dynamic port breakout: the run that deletes ports from Config DB, waits until the ASIC has
    dropped them and adds the new ports. The YANG library, jsondiff, the ASIC database and the
    default config file are what the run finds around it.
 */
module PortBreakout {
  import opened JsonTree
  import opened ConfigStore
  import opened PortBreakoutPlan
  import opened PortBreakoutConfig

  type Document = j: Json | j.Obj? witness Obj(map[])

  /** The calls made on sonic_yang. A result of None is an exception. */
  datatype YangLib = YangLib(
    findXpathPortLeaf: (Document, string) -> Option<string>,
    findXpathPort: (Document, string) -> Option<string>,
    dependencies: (Document, string) -> Option<seq<string>>,
    deleteNode: (Document, string) -> Option<Document>,
    loadData: Document -> Option<Document>,
    valid: Document -> bool)

  const MAX_WAIT := 60
  const OID_KEY := "ASIC_STATE:SAI_OBJECT_TYPE_PORT:oid:0x"

  /** The keys of ASIC DB at the moment of the j-th lookup of the i-th poll. */
  type AsicView = (nat, nat) -> set<string>

  predicate NotBefore(i: nat, j: nat, i': nat, j': nat) {
    i < i' || (i == i' && j <= j')
  }

  /** Keys that have left ASIC DB do not come back during the run. */
  ghost predicate GoneStaysGone(asic: AsicView) {
    forall i: nat, j: nat, i': nat, j': nat, key: string {:trigger key in asic(i, j), key in asic(i', j')} ::
      NotBefore(i, j, i', j') && key !in asic(i, j) ==> key !in asic(i', j')
  }

  /** _checkNoPortsInAsicDb at poll i: a port without a known oid counts as still there. */
  predicate PollSeesNone(asic: AsicView, i: nat, ports: seq<string>, portMap: map<string, string>) {
    forall j: nat | j < |ports| :: ports[j] in portMap && OID_KEY + portMap[ports[j]] !in asic(i, j)
  }

  /** Every port's key is absent from ASIC DB at every moment from (i, j) on. */
  ghost predicate AbsentFrom(asic: AsicView, i: nat, j: nat, ports: seq<string>, portMap: map<string, string>) {
    forall p, i': nat, j': nat | p in ports && NotBefore(i, j, i', j') ::
      p in portMap && OID_KEY + portMap[p] !in asic(i', j')
  }

  lemma PollIsFinal(asic: AsicView, i: nat, ports: seq<string>, portMap: map<string, string>)
    requires GoneStaysGone(asic) && PollSeesNone(asic, i, ports, portMap)
    ensures AbsentFrom(asic, i, |ports|, ports, portMap)
  {
    forall p, i': nat, j': nat | p in ports && NotBefore(i, |ports|, i', j')
      ensures p in portMap && OID_KEY + portMap[p] !in asic(i', j')
    {
      var j: nat :| j < |ports| && ports[j] == p;
      assert OID_KEY + portMap[p] !in asic(i, j);
      assert NotBefore(i, j, i', j');
    }
  }

  /** The config that shuts the ports down. */
  function Shutdown(ports: seq<string>): Json {
    Obj(map["PORT" := Obj(map p | p in ports :: Obj(map["admin_status" := Str("down")]))])
  }

  /** inp has an entry for every port, outp has none. */
  predicate PortsLeave(ports: seq<string>, inp: Json, outp: Json) {
    forall p | p in ports ::
      Get(Get(Some(inp), "PORT"), p).Some? && Get(Get(Some(outp), "PORT"), p).None?
  }

  function ShutEntry(entry: Option<Json>): Json {
    Obj(Merge(entry, Obj(map["admin_status" := Str("down")]), 2))
  }

  lemma ShutEntryFull(entry: Option<Json>)
    requires entry.Some? ==> NoEmptyList(entry.value)
    ensures NoEmptyList(ShutEntry(entry))
  {
    var p := Obj(map["admin_status" := Str("down")]);
    forall f | f in Merge(entry, p, 2) ensures NoEmptyList(Merge(entry, p, 2)[f]) {
      MergeAt(entry, p, 2, f);
    }
  }

  lemma ShutdownAt(db: Json, ports: seq<string>, t: string, k: string)
    requires db.Obj? && Get(Some(db), "PORT").Some? && db.m["PORT"].Obj?
    requires ports != []
    ensures
      var after := Modified(db, Shutdown(ports));
      && after.Obj? && "PORT" in after.m && after.m["PORT"].Obj?
      && (t != "PORT" ==> Get(Some(after), t) == Get(Some(db), t))
      && (k !in ports ==> Get(Get(Some(after), "PORT"), k) == Get(Get(Some(db), "PORT"), k))
      && (k in ports ==> Get(Get(Some(after), "PORT"), k) == Some(ShutEntry(Get(Get(Some(db), "PORT"), k))))
  {
    var s := Shutdown(ports);
    MergeAt(Some(db), s, 0, t);
    MergeAt(Some(db), s, 0, "PORT");
    MergeAt(Get(Some(db), "PORT"), s.m["PORT"], 1, k);
    MergeAt(Get(Some(db), "PORT"), s.m["PORT"], 1, ports[0]);
  }

  lemma AtThree(j: Json, a: string, b: string, c: string)
    ensures At(Some(j), [a, b, c]) == Get(Get(Get(Some(j), a), b), c)
  {
    var none: seq<string> := [];
    assert [a, b, c][1..] == [b, c] && [b, c][1..] == [c] && [c][1..] == none;
    var x := Get(Some(j), a);
    var y := Get(x, b);
    assert At(y, [c]) == At(Get(y, c), none);
    assert At(x, [b, c]) == At(y, [c]);
  }

  lemma ShutdownPlace(db: Json, ports: seq<string>, t: string, k: string, f: string)
    requires db.Obj? && ports != []
    ensures Modified(db, Shutdown(ports)).Obj?
    ensures At(Some(Modified(db, Shutdown(ports))), [t, k, f])
         == if t == "PORT" && k in ports && f == "admin_status" then Some(Str("down")) else At(Some(db), [t, k, f])
  {
    var s := Shutdown(ports);
    var after := Modified(db, s);
    var table := Get(Some(db), "PORT");
    AtThree(after, t, k, f);
    AtThree(db, t, k, f);
    MergeAt(Some(db), s, 0, t);
    if t == "PORT" {
      MergeAt(table, s.m["PORT"], 1, ports[0]);
      assert Get(Some(after), "PORT") == Some(Obj(Merge(table, s.m["PORT"], 1)));
      MergeAt(table, s.m["PORT"], 1, k);
      if k in ports {
        var down := Obj(map["admin_status" := Str("down")]);
        assert Get(Get(Some(after), "PORT"), k) == Some(Obj(Merge(Get(table, k), down, 2)));
        MergeAt(Get(table, k), down, 2, f);
      }
    }
  }

  /** Down are exactly these ports, and nothing else in the store changes. */
  lemma ShutdownPlaces(db: Json, ports: seq<string>)
    requires db.Obj? && ports != []
    ensures forall p | p in ports ::
      At(Some(Modified(db, Shutdown(ports))), ["PORT", p, "admin_status"]) == Some(Str("down"))
    ensures forall t, k, f | !(t == "PORT" && k in ports && f == "admin_status") ::
      At(Some(Modified(db, Shutdown(ports))), [t, k, f]) == At(Some(db), [t, k, f])
  {
    forall t, k, f
      ensures At(Some(Modified(db, Shutdown(ports))), [t, k, f])
           == if t == "PORT" && k in ports && f == "admin_status" then Some(Str("down")) else At(Some(db), [t, k, f])
    {
      ShutdownPlace(db, ports, t, k, f);
    }
  }

  /** The two tables agree outside the given keys. */
  predicate AgreeOff(a: map<string, Json>, b: map<string, Json>, keys: seq<string>) {
    && (forall k | k in a && k !in keys :: k in b && b[k] == a[k])
    && (forall k | k in b && k !in keys :: k in a)
  }

  lemma TableTracks(now: Json, before: Json, from: Json, to: Json, ports: seq<string>)
    requires now.Obj? && before.Obj? && from.Obj? && to.Obj?
    requires Settled(before, from, 1) && AgreeOff(now.m, before.m, ports)
    requires forall p | p in ports :: p in from.m && p !in to.m
    ensures Tracks(now, from, to, 1)
  {
    forall k | k in from.m && k in to.m ensures k in now.m && Tracks(now.m[k], from.m[k], to.m[k], 2) {
      SettledTracks(before.m[k], from.m[k], to.m[k], 2);
    }
  }

  /** Where a document lands depends only on the keys that it and the target share. */
  lemma LandsAlike(now: Json, before: Json, to: Json, level: nat)
    requires now.Obj? && before.Obj? && to.Obj? && level < 2
    requires forall k | k in to.m ::
      Landed(Get(Some(now), k), to.m[k], level + 1) == Landed(Get(Some(before), k), to.m[k], level + 1)
    ensures Landed(Some(now), to, level) == Landed(Some(before), to, level)
  {
    var a, b := Landed(Some(now), to, level).m, Landed(Some(before), to, level).m;
    forall k: string ensures Lookup(a, k) == Lookup(b, k) {
      LandedAt(Some(now), to, level, k);
      LandedAt(Some(before), to, level, k);
    }
    SameLookups(a, b);
  }

  lemma RootFades(after: Json, db: Json, inp: Json, outp: Json)
    requires after.Obj? && db.Obj? && inp.Obj? && outp.Obj?
    requires Settled(db, inp, 0) && AgreeOff(after.m, db.m, ["PORT"]) && "PORT" in inp.m && "PORT" in after.m
    requires "PORT" in outp.m ==>
      Tracks(after.m["PORT"], inp.m["PORT"], outp.m["PORT"], 1)
      && Landed(Some(after.m["PORT"]), outp.m["PORT"], 1) == Landed(Some(db.m["PORT"]), outp.m["PORT"], 1)
    ensures Tracks(after, inp, outp, 0)
    ensures Landed(Some(after), outp, 0) == Landed(Some(db), outp, 0)
  {
    forall t | t in inp.m && t in outp.m ensures t in after.m && Tracks(after.m[t], inp.m[t], outp.m[t], 1) {
      if t != "PORT" { SettledTracks(db.m[t], inp.m[t], outp.m[t], 1); }
    }
    LandsAlike(after, db, outp, 0);
  }

  lemma ShutdownAgrees(db: Json, ports: seq<string>)
    requires db.Obj? && Get(Some(db), "PORT").Some? && db.m["PORT"].Obj?
    requires ports != [] && NoEmptyList(db)
    ensures
      var after := Modified(db, Shutdown(ports));
      && after.Obj? && "PORT" in after.m && after.m["PORT"].Obj?
      && AgreeOff(after.m, db.m, ["PORT"]) && AgreeOff(after.m["PORT"].m, db.m["PORT"].m, ports)
      && NoEmptyList(after)
  {
    var after := Modified(db, Shutdown(ports));
    ShutdownAt(db, ports, "", "");
    forall t | t in after.m || t in db.m ensures t != "PORT" ==> Get(Some(after), t) == Get(Some(db), t) {
      ShutdownAt(db, ports, t, "");
    }
    var now := after.m["PORT"];
    forall k | k in now.m || k in db.m["PORT"].m
      ensures k !in ports ==> Lookup(now.m, k) == Lookup(db.m["PORT"].m, k)
      ensures k in now.m ==> NoEmptyList(now.m[k])
    {
      ShutdownAt(db, ports, "", k);
      ShutEntryFull(Get(Get(Some(db), "PORT"), k));
    }
  }

  /** The shutdown only touches entries that the delete plan removes, so it leaves no trace. */
  lemma ShutdownFades(db: Json, inp: Json, outp: Json, ports: seq<string>)
    requires Shape(inp, 0) && Shape(outp, 0) && Settled(db, inp, 0) && NoEmptyList(db)
    requires PortsLeave(ports, inp, outp) && ports != []
    ensures
      var after := Modified(db, Shutdown(ports));
      && Tracks(after, inp, outp, 0) && NoEmptyList(after)
      && Landed(Some(after), outp, 0) == Landed(Some(db), outp, 0)
  {
    var after := Modified(db, Shutdown(ports));
    PortTables(db, inp, outp, ports);
    ShutdownAgrees(db, ports);
    if "PORT" in outp.m {
      TableFades(after.m["PORT"], db.m["PORT"], inp.m["PORT"], outp.m["PORT"], ports);
    }
    RootFades(after, db, inp, outp);
  }

  lemma PortTables(db: Json, inp: Json, outp: Json, ports: seq<string>)
    requires Shape(inp, 0) && Shape(outp, 0) && Settled(db, inp, 0)
    requires PortsLeave(ports, inp, outp) && ports != []
    ensures db.Obj? && inp.Obj? && outp.Obj? && "PORT" in inp.m && "PORT" in db.m
    ensures db.m["PORT"].Obj? && inp.m["PORT"].Obj? && Settled(db.m["PORT"], inp.m["PORT"], 1)
    ensures "PORT" in outp.m ==> outp.m["PORT"].Obj?
    ensures forall p | p in ports :: p in inp.m["PORT"].m && ("PORT" in outp.m ==> p !in outp.m["PORT"].m)
  {
    assert ports[0] in ports;
  }

  lemma TableFades(now: Json, before: Json, from: Json, to: Json, ports: seq<string>)
    requires now.Obj? && before.Obj? && from.Obj? && to.Obj?
    requires Settled(before, from, 1) && AgreeOff(now.m, before.m, ports)
    requires forall p | p in ports :: p in from.m && p !in to.m
    ensures Tracks(now, from, to, 1)
    ensures Landed(Some(now), to, 1) == Landed(Some(before), to, 1)
  {
    TableTracks(now, before, from, to, ports);
    forall k | k in to.m ensures Get(Some(now), k) == Get(Some(before), k) {
      assert k !in ports;
    }
    LandsAlike(now, before, to, 1);
  }

  /** The writes of a completed run. */
  function ThreeWrites(db: Json, ports: seq<string>, delPlan: Json, addPlan: Json): Json {
    Modified(TwoWrites(db, ports, delPlan), addPlan)
  }

  /** Config DB with the ports shut down */
  function ShutDown(db: Json, ports: seq<string>): Json {
    if ports == [] then db else Modified(db, Shutdown(ports))
  }

  /** The shutdown and the deletion, after which a failed run stays */
  function TwoWrites(db: Json, ports: seq<string>, delPlan: Json): Json {
    Modified(ShutDown(db, ports), delPlan)
  }

  /** Config DB stands for the running config, and the ports are in that and not in the middle one. */
  predicate Begins(db: Json, running: Json, middle: Json, ports: seq<string>) {
    && Shape(running, 0) && Shape(middle, 0) && Settled(db, running, 0) && NoEmptyList(db)
    && PortsLeave(ports, running, middle)
  }

  /** The target has the ports of the middle config. */
  lemma ShutDownFades(db: Json, running: Json, middle: Json, ports: seq<string>)
    requires Begins(db, running, middle, ports)
    ensures
      var down := ShutDown(db, ports);
      && Tracks(down, running, middle, 0) && NoEmptyList(down)
      && Landed(Some(down), Unpadded(running, middle), 0) == Landed(Some(db), Unpadded(running, middle), 0)
  {
    SettledTracks(db, running, middle, 0);
    if ports != [] {
      var to := Unpadded(running, middle);
      PortTables(db, running, middle, ports);
      UnpaddedShape(running, middle, 0);
      UnpaddedKeys(running, middle);
      if "PORT" in middle.m { UnpaddedKeys(running.m["PORT"], middle.m["PORT"]); }
      ShutdownFades(db, running, middle, ports);
      ShutdownFades(db, running, to, ports);
    }
  }

  /** The first two writes together take the running config to the middle one exactly if its diff is supported. */
  lemma TwoWritesLandIff(db: Json, ports: seq<string>, d: Diff, running: Json, middle: Json)
    requires Begins(db, running, middle, ports) && IsDiff(d, running, middle)
    ensures Supported(d, ShutDown(db, ports), running, middle, 0) <==>
      && Planned(d, running, middle).Some?
      && TwoWrites(db, ports, Planned(d, running, middle).value) == Landed(Some(db), Unpadded(running, middle), 0)
  {
    ShutDownFades(db, running, middle, ports);
    PayloadLandsIffSupported(d, ShutDown(db, ports), running, middle);
  }

  /** Once the first two writes have landed, the three writes together land at the validated final config exactly
      if the second diff is supported there.
   */
  lemma ThreeWritesLandIff(db: Json, ports: seq<string>, d1: Diff, running: Json, middle: Json, d2: Diff, final: Json)
    requires Begins(db, running, middle, ports) && Shape(final, 0)
    requires IsDiff(d1, running, middle) && Supported(d1, ShutDown(db, ports), running, middle, 0)
    requires IsDiff(d2, middle, final)
    requires Unpadded(running, middle) == middle
    ensures Planned(d1, running, middle).Some?
    ensures
      var between := Landed(Some(db), middle, 0);
      var target := Landed(Some(between), Unpadded(middle, final), 0);
      && (Supported(d2, between, middle, final, 0) <==>
            && Planned(d2, middle, final).Some?
            && ThreeWrites(db, ports, Planned(d1, running, middle).value, Planned(d2, middle, final).value) == target)
      && Settled(target, Unpadded(middle, final), 0)
  {
    TwoWritesLandIff(db, ports, d1, running, middle);
    var between := Landed(Some(db), middle, 0);
    LandedSettles(Some(db), middle, 0);
    SettledTracks(between, middle, final, 0);
    PayloadLandsIffSupported(d2, between, middle, final);
    UnpaddedShape(middle, final, 0);
    LandedSettles(Some(between), Unpadded(middle, final), 0);
  }

  /** What find_data_dependencies returns for all the ports together; None if a call raises. */
  function AllDependencies(yang: YangLib, tree: Document, ports: seq<string>): Option<seq<string>>
    decreases |ports|
  {
    if ports == [] then Some([])
    else
      var most := AllDependencies(yang, tree, ports[..|ports| - 1]);
      var leaf := yang.findXpathPortLeaf(tree, ports[|ports| - 1]);
      if most.None? || leaf.None? then None
      else
        var last := yang.dependencies(tree, leaf.value);
        if last.None? then None else Some(most.value + last.value)
  }

  /** The tree without these nodes; None if a deletion raises. */
  function NodesDeleted(yang: YangLib, tree: Document, paths: seq<string>): Option<Document>
    decreases |paths|
  {
    if paths == [] then Some(tree)
    else
      var next := yang.deleteNode(tree, paths[0]);
      if next.None? then None else NodesDeleted(yang, next.value, paths[1..])
  }

  /** The tree without these ports, each looked up after the deletions before it. */
  function PortsDeleted(yang: YangLib, tree: Document, ports: seq<string>): Option<Document>
    decreases |ports|
  {
    if ports == [] then Some(tree)
    else
      var path := yang.findXpathPort(tree, ports[0]);
      var next := if path.Some? then yang.deleteNode(tree, path.value) else None;
      if next.None? then None else PortsDeleted(yang, next.value, ports[1..])
  }

  /** The tree without the dependencies of the ports and without the ports. */
  function TreeWithout(yang: YangLib, tree: Document, ports: seq<string>): Option<Document> {
    var deps := AllDependencies(yang, tree, ports);
    if deps.None? then None
    else
      var free := NodesDeleted(yang, tree, deps.value);
      if free.None? then None else PortsDeleted(yang, free.value, ports)
  }

  /** Both lookups succeed for every port. */
  predicate LookupsSucceed(yang: YangLib, tree: Document, ports: seq<string>) {
    forall p | p in ports ::
      var leaf := yang.findXpathPortLeaf(tree, p);
      leaf.Some? && yang.dependencies(tree, leaf.value).Some?
  }

  /** The node is among the dependencies of some port. */
  predicate DependsOn(yang: YangLib, tree: Document, ports: seq<string>, node: string) {
    exists p | p in ports ::
      var leaf := yang.findXpathPortLeaf(tree, p);
      leaf.Some? && yang.dependencies(tree, leaf.value).Some? && node in yang.dependencies(tree, leaf.value).value
  }

  /** These items of `found` are the dependencies of the port. */
  predicate IsCut(yang: YangLib, tree: Document, port: string, found: seq<string>, from: nat, to: nat) {
    var leaf := yang.findXpathPortLeaf(tree, port);
    leaf.Some? && from <= to <= |found| && yang.dependencies(tree, leaf.value) == Some(found[from..to])
  }

  /** `found` is cut into the dependencies of the ports, one port after the other. */
  predicate CutsUp(yang: YangLib, tree: Document, ports: seq<string>, found: seq<string>, cuts: seq<nat>) {
    && |cuts| == |ports| + 1 && cuts[0] == 0 && cuts[|ports|] == |found|
    && forall i | 0 <= i < |ports| :: IsCut(yang, tree, ports[i], found, cuts[i], cuts[i + 1])
  }

  /** The trees between the deletions of the nodes at these paths */
  predicate NodeSteps(yang: YangLib, start: Document, paths: seq<string>, trees: seq<Document>, end: Document) {
    && |trees| == |paths| + 1 && trees[0] == start && trees[|paths|] == end
    && forall i | 0 <= i < |paths| :: yang.deleteNode(trees[i], paths[i]) == Some(trees[i + 1])
  }

  /** The port is found in the one tree, and its deletion leaves the other. */
  predicate IsPortStep(yang: YangLib, before: Document, port: string, after: Document) {
    var path := yang.findXpathPort(before, port);
    path.Some? && yang.deleteNode(before, path.value) == Some(after)
  }

  /** The trees between the deletions of the ports, each found in the tree of its turn */
  predicate PortSteps(yang: YangLib, start: Document, ports: seq<string>, trees: seq<Document>, end: Document) {
    && |trees| == |ports| + 1 && trees[0] == start && trees[|ports|] == end
    && forall i | 0 <= i < |ports| :: IsPortStep(yang, trees[i], ports[i], trees[i + 1])
  }

  /** From `start`, all dependencies of the ports are deleted in order, then the ports, and that leaves `end`. */
  ghost predicate Emptied(yang: YangLib, start: Document, ports: seq<string>, end: Document) {
    exists found, cuts, free, a, b ::
      && CutsUp(yang, start, ports, found, cuts)
      && NodeSteps(yang, start, found, a, free) && PortSteps(yang, free, ports, b, end)
  }

  /** `found` are exactly the dependencies of the ports, in order. */
  ghost predicate AreDependencies(yang: YangLib, tree: Document, ports: seq<string>, found: seq<string>) {
    && (exists cuts :: CutsUp(yang, tree, ports, found, cuts))
    && (forall x :: x in found <==> DependsOn(yang, tree, ports, x))
  }

  /** Only dependencies are ever reported; without force, if there are any, the run stops and all of them are, and it
      only goes on if there are none.
   */
  ghost predicate Reported(yang: YangLib, tree: Document, ports: seq<string>, force: bool, deps: Option<seq<string>>,
                           stopped: bool) {
    && (deps.Some? ==> forall node | node in deps.value :: DependsOn(yang, tree, ports, node))
    && (!force && LookupsSucceed(yang, tree, ports) && (exists node :: DependsOn(yang, tree, ports, node))
        ==> stopped && deps.Some? && AreDependencies(yang, tree, ports, deps.value))
    && (!force && !stopped ==> forall node :: !DependsOn(yang, tree, ports, node))
  }

  /** What is found are exactly the dependencies of the ports, in order. */
  lemma {:induction false} DependenciesAre(yang: YangLib, tree: Document, ports: seq<string>)
    ensures AllDependencies(yang, tree, ports).Some? <==> LookupsSucceed(yang, tree, ports)
    ensures AllDependencies(yang, tree, ports).Some? ==>
      AreDependencies(yang, tree, ports, AllDependencies(yang, tree, ports).value)
    decreases |ports|
  {
    if ports == [] {
      assert CutsUp(yang, tree, ports, [], [0]);
    } else {
      var most, port := ports[..|ports| - 1], ports[|ports| - 1];
      DependenciesAre(yang, tree, most);
      assert ports == most + [port];
      var leaf := yang.findXpathPortLeaf(tree, port);
      if AllDependencies(yang, tree, ports).Some? {
        var found, last := AllDependencies(yang, tree, most).value, yang.dependencies(tree, leaf.value).value;
        var cuts :| CutsUp(yang, tree, most, found, cuts);
        CutsLonger(yang, tree, most, port, found, last, cuts);
        forall x ensures x in found + last <==> DependsOn(yang, tree, ports, x) {
          if x in last { assert port in ports; }
        }
      }
    }
  }

  lemma CutsLonger(yang: YangLib, tree: Document, most: seq<string>, port: string, found: seq<string>,
                   last: seq<string>, cuts: seq<nat>)
    requires CutsUp(yang, tree, most, found, cuts)
    requires yang.findXpathPortLeaf(tree, port).Some?
    requires yang.dependencies(tree, yang.findXpathPortLeaf(tree, port).value) == Some(last)
    ensures CutsUp(yang, tree, most + [port], found + last, cuts + [|found + last|])
  {
    var ports, longer := most + [port], cuts + [|found + last|];
    forall i | 0 <= i < |ports| ensures IsCut(yang, tree, ports[i], found + last, longer[i], longer[i + 1]) {
      if i < |most| {
        assert IsCut(yang, tree, most[i], found, cuts[i], cuts[i + 1]);
        assert (found + last)[cuts[i]..cuts[i + 1]] == found[cuts[i]..cuts[i + 1]];
      } else {
        assert (found + last)[|found|..|found + last|] == last;
      }
    }
  }

  /** There is one way to cut. */
  lemma {:induction false} CutsAreAll(yang: YangLib, tree: Document, ports: seq<string>, found: seq<string>,
                                      cuts: seq<nat>, n: nat)
    requires CutsUp(yang, tree, ports, found, cuts) && n <= |ports|
    ensures cuts[n] <= |found| && AllDependencies(yang, tree, ports[..n]) == Some(found[..cuts[n]])
    decreases n
  {
    if n > 0 {
      CutsAreAll(yang, tree, ports, found, cuts, n - 1);
      assert IsCut(yang, tree, ports[n - 1], found, cuts[n - 1], cuts[n]);
      assert ports[..n][..n - 1] == ports[..n - 1];
      assert found[..cuts[n]] == found[..cuts[n - 1]] + found[cuts[n - 1]..cuts[n]];
    }
  }

  lemma {:induction false} NodesDeletedIff(yang: YangLib, start: Document, paths: seq<string>, end: Document)
    ensures NodesDeleted(yang, start, paths) == Some(end) <==>
      exists trees :: NodeSteps(yang, start, paths, trees, end)
    decreases |paths|
  {
    if paths == [] {
      if start == end { assert NodeSteps(yang, start, paths, [start], end); }
    } else {
      var next := yang.deleteNode(start, paths[0]);
      if next.Some? {
        NodesDeletedIff(yang, next.value, paths[1..], end);
      }
      if NodesDeleted(yang, start, paths) == Some(end) {
        var rest :| NodeSteps(yang, next.value, paths[1..], rest, end);
        var trees := [start] + rest;
        forall i | 0 <= i < |paths| ensures yang.deleteNode(trees[i], paths[i]) == Some(trees[i + 1]) {
          if i > 0 { assert paths[1..][i - 1] == paths[i] && rest[i - 1] == trees[i]; }
        }
        assert NodeSteps(yang, start, paths, trees, end);
      }
      forall trees | NodeSteps(yang, start, paths, trees, end)
        ensures NodesDeleted(yang, start, paths) == Some(end)
      {
        assert yang.deleteNode(trees[0], paths[0]) == Some(trees[1]);
        assert NodeSteps(yang, next.value, paths[1..], trees[1..], end);
      }
    }
  }

  lemma {:induction false} PortsDeletedIff(yang: YangLib, start: Document, ports: seq<string>, end: Document)
    ensures PortsDeleted(yang, start, ports) == Some(end) <==>
      exists trees :: PortSteps(yang, start, ports, trees, end)
    decreases |ports|
  {
    if ports == [] {
      if start == end { assert PortSteps(yang, start, ports, [start], end); }
    } else {
      var path := yang.findXpathPort(start, ports[0]);
      var next := if path.Some? then yang.deleteNode(start, path.value) else None;
      if next.Some? {
        PortsDeletedIff(yang, next.value, ports[1..], end);
      }
      if PortsDeleted(yang, start, ports) == Some(end) {
        var rest :| PortSteps(yang, next.value, ports[1..], rest, end);
        var trees := [start] + rest;
        forall i | 0 <= i < |ports| ensures IsPortStep(yang, trees[i], ports[i], trees[i + 1]) {
          if i > 0 { assert IsPortStep(yang, rest[i - 1], ports[1..][i - 1], rest[i]); }
        }
        assert PortSteps(yang, start, ports, trees, end);
      }
      forall trees | PortSteps(yang, start, ports, trees, end)
        ensures PortsDeleted(yang, start, ports) == Some(end)
      {
        assert IsPortStep(yang, trees[0], ports[0], trees[1]);
        forall i | 0 <= i < |ports[1..]| ensures IsPortStep(yang, trees[1..][i], ports[1..][i], trees[1..][i + 1]) {
          assert IsPortStep(yang, trees[i + 1], ports[i + 1], trees[i + 2]);
        }
        assert PortSteps(yang, next.value, ports[1..], trees[1..], end);
      }
    }
  }

  /** The tree without the ports is what the deletions in their order leave, and there is none if one fails. */
  lemma TreeWithoutIff(yang: YangLib, tree: Document, ports: seq<string>, end: Document)
    ensures TreeWithout(yang, tree, ports) == Some(end) <==> Emptied(yang, tree, ports, end)
  {
    DependenciesAre(yang, tree, ports);
    if TreeWithout(yang, tree, ports) == Some(end) {
      var found := AllDependencies(yang, tree, ports).value;
      var free := NodesDeleted(yang, tree, found).value;
      NodesDeletedIff(yang, tree, found, free);
      PortsDeletedIff(yang, free, ports, end);
    }
    if Emptied(yang, tree, ports, end) {
      var found, cuts, free, a, b :|
        && CutsUp(yang, tree, ports, found, cuts)
        && NodeSteps(yang, tree, found, a, free) && PortSteps(yang, free, ports, b, end);
      CutsAreAll(yang, tree, ports, found, cuts, |ports|);
      assert ports[..|ports|] == ports && found[..|found|] == found;
      NodesDeletedIff(yang, tree, found, free);
      PortsDeletedIff(yang, free, ports, end);
    }
  }

  lemma EmptiedOnce(yang: YangLib, tree: Document, ports: seq<string>, end: Document)
    requires Emptied(yang, tree, ports, end)
    ensures forall other | Emptied(yang, tree, ports, other) :: other == end
  {
    TreeWithoutIff(yang, tree, ports, end);
    forall other | Emptied(yang, tree, ports, other) ensures other == end {
      TreeWithoutIff(yang, tree, ports, other);
    }
  }

  /** What a run does to the outside world, in order. */
  datatype Event =
    | Validated(tree: Document)
    | Wrote(payload: Json)
    | Polled(gone: bool)

  predicate NoWrites(events: seq<Event>) {
    forall e | e in events :: !e.Wrote?
  }

  predicate AllPolls(events: seq<Event>) {
    forall e | e in events :: e.Polled?
  }

  /** data with the entries of the new ports put in, over those that it has for them */
  ghost predicate IsEntered(entered: Document, data: Document, portJson: Document) {
    && "PORT" in portJson.m && portJson.m["PORT"].Obj? && "PORT" in data.m && data.m["PORT"].Obj?
    && "PORT" in entered.m && entered.m["PORT"].Obj?
    && (forall t | t != "PORT" :: Lookup(entered.m, t) == Lookup(data.m, t))
    && (forall p :: Lookup(entered.m["PORT"].m, p) ==
          if p in portJson.m["PORT"].m then Some(portJson.m["PORT"].m[p]) else Lookup(data.m["PORT"].m, p))
  }

  /** The same, computed */
  function Entered(data: Document, portJson: Document): Document
    requires "PORT" in portJson.m && portJson.m["PORT"].Obj? && "PORT" in data.m && data.m["PORT"].Obj?
  {
    Obj(data.m["PORT" := Obj(data.m["PORT"].m + portJson.m["PORT"].m)])
  }

  lemma EnteredIs(data: Document, portJson: Document)
    requires "PORT" in portJson.m && portJson.m["PORT"].Obj? && "PORT" in data.m && data.m["PORT"].Obj?
    ensures IsEntered(Entered(data, portJson), data, portJson)
  {
  }

  /** data with the entries of the new ports put in and then, on request, what the default config
      has for those ports merged in.
   */
  ghost predicate IsTarget(out: Document, data: Document, portJson: Document, loadDefConfig: bool,
                     defaults: Option<Document>, ports: seq<string>) {
    && "PORT" in portJson.m && portJson.m["PORT"].Obj? && "PORT" in data.m && data.m["PORT"].Obj?
    && (forall k :: k in ports <==> k in portJson.m["PORT"].m)
    && if loadDefConfig
       then defaults.Some? && Merged(Entered(data, portJson), Searched(defaults.value, ports), true) == Some(out)
       else out == Entered(data, portJson)
  }

  /** The target, place by place */
  lemma TargetPlaces(out: Document, data: Document, portJson: Document, loadDefConfig: bool,
                     defaults: Option<Document>, ports: seq<string>)
    requires IsTarget(out, data, portJson, loadDefConfig, defaults, ports)
    ensures IsEntered(Entered(data, portJson), data, portJson)
    ensures if loadDefConfig
            then !HasClash(Entered(data, portJson), Searched(defaults.value, ports))
                 && IsMerge(Entered(data, portJson), Searched(defaults.value, ports), out)
            else out == Entered(data, portJson)
  {
    EnteredIs(data, portJson);
    if loadDefConfig { MergeMeans(Entered(data, portJson), Searched(defaults.value, ports), true); }
  }

  /** There is a target exactly if the data has ports and the default config does not clash with them. */
  lemma TargetIff(data: Document, portJson: Document, loadDefConfig: bool, defaults: Option<Document>,
                  ports: seq<string>)
    requires "PORT" in portJson.m && portJson.m["PORT"].Obj? && (loadDefConfig ==> defaults.Some?)
    requires forall k :: k in ports <==> k in portJson.m["PORT"].m
    ensures (exists out :: IsTarget(out, data, portJson, loadDefConfig, defaults, ports)) <==>
      && "PORT" in data.m && data.m["PORT"].Obj?
      && (loadDefConfig ==> !HasClash(Entered(data, portJson), Searched(defaults.value, ports)))
  {
    if "PORT" in data.m && data.m["PORT"].Obj? {
      var a := Entered(data, portJson);
      if loadDefConfig {
        MergeMeans(a, Searched(defaults.value, ports), true);
        var merged := Merged(a, Searched(defaults.value, ports), true);
        if merged.Some? {
          var out: Document := merged.value;
          assert IsTarget(out, data, portJson, loadDefConfig, defaults, ports);
        }
      } else {
        assert IsTarget(a, data, portJson, loadDefConfig, defaults, ports);
      }
    }
  }

  /** The config with the new ports, None when the data has no ports at all or the merge raises. */
  method TargetConfig(data: Document, portJson: Document, loadDefConfig: bool, defaults: Option<Document>)
    returns (out: Option<Document>, ports: seq<string>)
    requires "PORT" in portJson.m && portJson.m["PORT"].Obj? && (loadDefConfig ==> defaults.Some?)
    ensures forall k :: k in ports <==> k in portJson.m["PORT"].m
    ensures out.Some? ==> IsTarget(out.value, data, portJson, loadDefConfig, defaults, ports)
    ensures out.None? ==> forall o :: !IsTarget(o, data, portJson, loadDefConfig, defaults, ports)
  {
    ports := SomeOrder(portJson.m["PORT"].m.Keys);
    if !("PORT" in data.m && data.m["PORT"].Obj?) {
      return None, ports;
    }
    var entered := Obj(data.m["PORT" := Obj(data.m["PORT"].m + portJson.m["PORT"].m)]);
    if !loadDefConfig {
      return Some(entered), ports;
    }
    var defConfig, _ := SearchKeysInConfig(defaults.value, ports);
    var merged, _ := MergeConfigs(entered, defConfig, true);
    out := if merged.Some? then Some(merged.value) else None;
  }

  /** How a run went: it stopped while planning, or it started to write. */
  datatype Run =
    | Stopped(checks: seq<Event>)
    | Started(middle: Document, delPlan: Json, addPlan: Json, polls: seq<Event>, poll: nat)

  /** The writing half of a run. */
  function WritingTrace(ports: seq<string>, delPlan: Json, polls: seq<Event>, addPlan: Json, done: bool): seq<Event> {
    (if ports == [] then [] else [Wrote(Shutdown(ports))]) + [Wrote(delPlan)] + polls
    + (if done then [Wrote(addPlan)] else [])
  }

  class ConfigMgmtDPB {
    const yang: YangLib
    const jsondiff: (Document, Document) -> Diff
    const asic: AsicView
    var tree: Document
    var configdbJsonIn: Document
    var configdbJsonOut: Option<Document>
    var db: Document
    ghost var events: seq<Event>

    constructor (yang: YangLib, jsondiff: (Document, Document) -> Diff, asic: AsicView,
                 tree: Document, configdbJsonIn: Document, db: Document)
      ensures this.yang == yang && this.jsondiff == jsondiff && this.asic == asic
      ensures this.tree == tree && this.configdbJsonIn == configdbJsonIn && this.db == db
      ensures configdbJsonOut == None && events == []
    {
      this.yang, this.jsondiff, this.asic := yang, jsondiff, asic;
      this.tree, this.configdbJsonIn, this.db := tree, configdbJsonIn, db;
      configdbJsonOut, events := None, [];
    }

    /** jsondiff describes the difference of any two documents. */
    ghost predicate DiffsRight() {
      forall a: Document, b: Document :: IsDiff(jsondiff(a, b), a, b)
    }

    function PlanFor(inp: Document, outp: Document): Option<Json> {
      Planned(jsondiff(inp, outp), inp, outp)
    }

    /** No path of the difference leads to values that cannot be compiled. */
    ghost predicate Plannable(inp: Document, outp: Document) {
      !exists path :: StuckAt(jsondiff(inp, outp), inp, outp, path)
    }

    lemma PlannableIff(inp: Document, outp: Document)
      requires DiffsRight()
      ensures PlanFor(inp, outp).Some? <==> Plannable(inp, outp)
    {
      RaisesIff(jsondiff(inp, outp), inp, outp);
    }

    /** When deleting the ports gets as far as a plan */
    ghost predicate CanDelete(data: Document, running: Document, ports: seq<string>, force: bool) {
      && (force || forall node :: !DependsOn(yang, data, ports, node))
      && exists middle ::
           Emptied(yang, data, ports, middle) && yang.valid(middle) && Plannable(running, middle)
    }

    /** The same, computed */
    predicate Deletable(data: Document, running: Document, ports: seq<string>, force: bool) {
      && (force || AllDependencies(yang, data, ports) == Some([]))
      && TreeWithout(yang, data, ports).Some? && yang.valid(TreeWithout(yang, data, ports).value)
      && PlanFor(running, TreeWithout(yang, data, ports).value).Some?
    }

    lemma DeletableIff(data: Document, running: Document, ports: seq<string>, force: bool)
      requires DiffsRight()
      ensures Deletable(data, running, ports, force) <==> CanDelete(data, running, ports, force)
    {
      DependenciesAre(yang, data, ports);
      var middle := TreeWithout(yang, data, ports);
      if middle.Some? {
        TreeWithoutIff(yang, data, ports, middle.value);
        PlannableIff(running, middle.value);
        var found := AllDependencies(yang, data, ports).value;
        assert found != [] ==> found[0] in found && DependsOn(yang, data, ports, found[0]);
      }
      forall other | Emptied(yang, data, ports, other) ensures middle == Some(other) {
        TreeWithoutIff(yang, data, ports, other);
      }
    }

    /** When adding the ports gets as far as a plan */
    ghost predicate CanAdd(data: Document, from: Document, portJson: Document, loadDefConfig: bool,
                           defaults: Option<Document>, ports: seq<string>) {
      exists out :: IsTarget(out, data, portJson, loadDefConfig, defaults, ports) && Loads(from, out)
    }

    /** When both plans exist */
    ghost predicate CanPlan(data: Document, running: Document, delPorts: seq<string>, force: bool, portJson: Document,
                            loadDefConfig: bool, defaults: Option<Document>, ports: seq<string>) {
      && CanDelete(data, running, delPorts, force)
      && exists middle ::
           Emptied(yang, data, delPorts, middle) && CanAdd(middle, middle, portJson, loadDefConfig, defaults, ports)
    }

    ghost predicate Loads(from: Document, out: Document) {
      yang.loadData(out).Some? && yang.valid(yang.loadData(out).value) && Plannable(from, out)
    }

    /** writeConfigDB */
    method WriteConfigDB(jDiff: Json)
      requires jDiff.Obj?
      modifies this`db, this`events
      ensures db == Modified(old(db), jDiff)
      ensures events == old(events) + [Wrote(jDiff)]
    {
      db := Modified(db, jDiff);
      events := events + [Wrote(jDiff)];
    }

    /** _checkNoPortsInAsicDb, as the i-th poll */
    method CheckNoPortsInAsicDb(i: nat, ports: seq<string>, portMap: map<string, string>) returns (none: bool)
      ensures none <==> PollSeesNone(asic, i, ports, portMap)
      ensures none <==> forall j: nat | j < |ports| ::
        ports[j] in portMap && "ASIC_STATE:SAI_OBJECT_TYPE_PORT:oid:0x" + portMap[ports[j]] !in asic(i, j)
    {
      for j := 0 to |ports|
        invariant forall n: nat | n < j :: ports[n] in portMap && OID_KEY + portMap[ports[n]] !in asic(i, n)
      {
        if ports[j] !in portMap || OID_KEY + portMap[ports[j]] in asic(i, j) {
          return false;
        }
      }
      none := true;
    }

    /** _verifyAsicDB; false stands for the exception. A success on the very last poll counts as a timeout. */
    method VerifyAsicDB(ports: seq<string>, portMap: map<string, string>, timeout: nat)
      returns (ok: bool, ghost poll: nat)
      modifies this`events
      ensures ok <==> exists i: nat :: i + 1 < timeout && PollSeesNone(asic, i, ports, portMap)
      ensures ok ==> PollSeesNone(asic, poll, ports, portMap)
      ensures |old(events)| <= |events| && events[..|old(events)|] == old(events)
      ensures AllPolls(events[|old(events)|..])
      ensures ok ==> events[|old(events)|..] != [] && events[|events| - 1] == Polled(true)
    {
      var waitTime := 0;
      var gone := false;
      while waitTime < timeout && !gone
        invariant waitTime <= timeout
        invariant gone ==> waitTime < timeout && PollSeesNone(asic, waitTime, ports, portMap)
        invariant forall i: nat | i < waitTime :: !PollSeesNone(asic, i, ports, portMap)
        invariant |old(events)| <= |events| && events[..|old(events)|] == old(events)
        invariant AllPolls(events[|old(events)|..])
        invariant gone ==> |old(events)| < |events| && events[|events| - 1] == Polled(true)
        decreases timeout - waitTime, !gone
      {
        gone := CheckNoPortsInAsicDb(waitTime, ports, portMap);
        events := events + [Polled(gone)];
        if !gone {
          waitTime := waitTime + 1;
        }
      }
      ok := gone && waitTime + 1 < timeout;
      poll := waitTime;
    }

    /** _shutdownIntf */
    method ShutdownIntf(ports: seq<string>)
      modifies this`db, this`events
      ensures db == if ports == [] then old(db) else Modified(old(db), Shutdown(ports))
      ensures forall p | p in ports :: At(Some(db), ["PORT", p, "admin_status"]) == Some(Str("down"))
      ensures forall t, k, f | !(t == "PORT" && k in ports && f == "admin_status") ::
        At(Some(db), [t, k, f]) == At(Some(old(db)), [t, k, f])
      ensures events == old(events) + if ports == [] then [] else [Wrote(Shutdown(ports))]
    {
      var shutDownConf: map<string, Json> := map[];
      for i := 0 to |ports|
        invariant shutDownConf == map p | p in ports[..i] :: Obj(map["admin_status" := Str("down")])
      {
        shutDownConf := shutDownConf[ports[i] := Obj(map["admin_status" := Str("down")])];
        assert ports[..i + 1] == ports[..i] + [ports[i]];
      }
      assert ports[..|ports|] == ports;
      assert ports != [] ==> ports[0] in shutDownConf;
      if ports != [] {
        ShutdownPlaces(db, ports);
      }
      if |shutDownConf| != 0 {
        WriteConfigDB(Obj(map["PORT" := Obj(shutDownConf)]));
      }
    }

    /** The first loop of _deletePorts: what is found before a lookup fails, if one does */
    method PortDependencies(ports: seq<string>) returns (complete: bool, found: seq<string>)
      ensures complete <==> AllDependencies(yang, tree, ports).Some?
      ensures complete ==> AllDependencies(yang, tree, ports) == Some(found)
      ensures complete <==> LookupsSucceed(yang, tree, ports)
      ensures complete ==> AreDependencies(yang, tree, ports, found)
      ensures forall node | node in found :: DependsOn(yang, tree, ports, node)
    {
      found := [];
      DependenciesAre(yang, tree, ports);
      for i := 0 to |ports|
        invariant AllDependencies(yang, tree, ports[..i]) == Some(found)
      {
        assert ports[..i + 1][..i] == ports[..i];
        var leaf := yang.findXpathPortLeaf(tree, ports[i]);
        var dep := if leaf.Some? then yang.dependencies(tree, leaf.value) else None;
        if dep.None? {
          DependenciesFail(yang, tree, ports, i + 1);
          DependenciesAre(yang, tree, ports[..i]);
          assert forall p | p in ports[..i] :: p in ports;
          return false, found;
        }
        found := found + dep.value;
      }
      assert ports[..|ports|] == ports;
      complete := true;
    }

    /** _deletePorts */
    method DeletePorts(ports: seq<string>, force: bool)
      returns (configToLoad: Option<Json>, deps: Option<seq<string>>, ret: bool)
      requires DiffsRight()
      modifies this`tree, this`configdbJsonOut, this`events
      ensures ret <==> CanDelete(old(tree), configdbJsonIn, ports, force)
      ensures ret ==> Emptied(yang, old(tree), ports, tree) && configdbJsonOut == Some(tree)
      ensures ret ==> configToLoad.Some? && configToLoad == PlanFor(configdbJsonIn, tree) && configToLoad.value.Obj?
      ensures ret ==> events == old(events) + [Validated(tree)]
      ensures !ret ==> events == old(events) || events == old(events) + [Validated(tree)]
      ensures deps.Some? ==> forall node | node in deps.value :: DependsOn(yang, old(tree), ports, node)
      ensures !force && LookupsSucceed(yang, old(tree), ports)
        && (exists node :: DependsOn(yang, old(tree), ports, node))
        ==> !ret && tree == old(tree) && deps.Some? && AreDependencies(yang, old(tree), ports, deps.value)
    {
      DeletableIff(tree, configdbJsonIn, ports, force);
      var complete, found := PortDependencies(ports);
      if !complete || (!force && found != []) {
        return None, Some(found), false;
      }
      for i := 0 to |found|
        invariant events == old(events)
        invariant NodesDeleted(yang, tree, found[i..]) == NodesDeleted(yang, old(tree), found)
      {
        assert found[i..][1..] == found[i + 1..];
        var pruned := yang.deleteNode(tree, found[i]);
        if pruned.None? {
          return None, Some(found), false;
        }
        tree := pruned.value;
      }
      deps := None;
      ghost var free := tree;
      for i := 0 to |ports|
        invariant events == old(events)
        invariant PortsDeleted(yang, tree, ports[i..]) == PortsDeleted(yang, free, ports)
      {
        assert ports[i..][1..] == ports[i + 1..];
        var path := yang.findXpathPort(tree, ports[i]);
        var pruned := if path.Some? then yang.deleteNode(tree, path.value) else None;
        if pruned.None? {
          return None, None, false;
        }
        tree := pruned.value;
      }
      if !yang.valid(tree) {
        return None, None, false;
      }
      TreeWithoutIff(yang, old(tree), ports, tree);
      events := events + [Validated(tree)];
      configdbJsonOut := Some(tree);
      configToLoad := CreateConfigToLoad(jsondiff(configdbJsonIn, tree), configdbJsonIn, tree);
      ret := configToLoad.Some?;
    }

    /** _addPorts. defaults is the default config file, None if it cannot be read. */
    method AddPorts(portJson: Document, loadDefConfig: bool, defaults: Option<Document>)
      returns (configToLoad: Option<Json>, ret: bool, ghost ports: seq<string>)
      requires DiffsRight()
      modifies this`tree, this`configdbJsonIn, this`configdbJsonOut, this`events
      ensures ret <==> CanAdd(if old(configdbJsonOut).Some? then old(configdbJsonOut).value else old(tree), old(tree),
                              portJson, loadDefConfig, defaults, ports)
      ensures ret ==> yang.valid(tree) && configdbJsonIn == old(tree) && configdbJsonOut.Some?
      ensures ret ==> yang.loadData(configdbJsonOut.value) == Some(tree)
      ensures ret ==>
        IsTarget(configdbJsonOut.value, if old(configdbJsonOut).Some? then old(configdbJsonOut).value else old(tree),
                 portJson, loadDefConfig, defaults, ports)
      ensures ret ==>
        configToLoad.Some? && configToLoad == PlanFor(configdbJsonIn, configdbJsonOut.value) && configToLoad.value.Obj?
      ensures ret ==> events == old(events) + [Validated(tree)]
      ensures !ret ==> events == old(events) || events == old(events) + [Validated(tree)]
    {
      ports := [];
      if !("PORT" in portJson.m && portJson.m["PORT"].Obj?) || (loadDefConfig && defaults.None?) {
        return None, false, ports;
      }
      configdbJsonIn := tree;
      if configdbJsonOut.None? {
        configdbJsonOut := Some(tree);
      }
      var out;
      out, ports := TargetConfig(configdbJsonOut.value, portJson, loadDefConfig, defaults);
      if out.None? {
        return None, false, ports;
      }
      configdbJsonOut := out;
      var loaded := yang.loadData(out.value);
      if loaded.None? {
        return None, false, ports;
      }
      tree := loaded.value;
      if !yang.valid(tree) {
        return None, false, ports;
      }
      events := events + [Validated(tree)];
      configToLoad := CreateConfigToLoad(jsondiff(configdbJsonIn, out.value), configdbJsonIn, out.value);
      ret := configToLoad.Some?;
    }

    /** The condition under which the delete plan says what it should: the compiler gets its diff right, and
        deleting the ports fills no empty list.
     */
    ghost predicate DeleteFits(start: Document, running: Document, middle: Document, ports: seq<string>) {
      && Supported(jsondiff(running, middle), ShutDown(start, ports), running, middle, 0)
      && Unpadded(running, middle) == middle
    }

    /** The planning half of breakOutPort: nothing is written, and there are plans only if both
        resulting configs were validated.
     */
    method PlanOut(delPorts: seq<string>, portJson: Document, force: bool, loadDefConfig: bool,
                   defaults: Option<Document>)
      returns (deps: Option<seq<string>>, plans: Option<(Json, Json)>, ghost middle: Document, ghost checks: seq<Event>,
               ghost ports: seq<string>)
      requires DiffsRight()
      modifies this`tree, this`configdbJsonIn, this`configdbJsonOut, this`events
      ensures events == old(events) + checks && NoWrites(checks)
      ensures deps.Some? ==> forall node | node in deps.value :: DependsOn(yang, old(tree), delPorts, node)
      ensures !force && LookupsSucceed(yang, old(tree), delPorts)
        && (exists node :: DependsOn(yang, old(tree), delPorts, node))
        ==> plans.None? && deps.Some? && AreDependencies(yang, old(tree), delPorts, deps.value)
      ensures plans.Some? <==>
        CanPlan(old(tree), old(configdbJsonIn), delPorts, force, portJson, loadDefConfig, defaults, ports)
      ensures plans.Some? ==>
        && checks == [Validated(middle), Validated(tree)] && yang.valid(middle) && yang.valid(tree)
        && Emptied(yang, old(tree), delPorts, middle)
        && configdbJsonIn == middle && configdbJsonOut.Some? && yang.loadData(configdbJsonOut.value) == Some(tree)
        && Some(plans.value.0) == PlanFor(old(configdbJsonIn), middle) && plans.value.0.Obj?
        && Some(plans.value.1) == PlanFor(middle, configdbJsonOut.value) && plans.value.1.Obj?
        && IsTarget(configdbJsonOut.value, middle, portJson, loadDefConfig, defaults, ports)
    {
      ports := [];
      var delConfigToLoad, found, deleted := DeletePorts(delPorts, force);
      middle := tree;
      checks := events[|old(events)|..];
      if !deleted {
        return found, None, middle, checks, ports;
      }
      EmptiedOnce(yang, old(tree), delPorts, middle);
      var addConfigToLoad, added;
      addConfigToLoad, added, ports := AddPorts(portJson, loadDefConfig, defaults);
      checks := events[|old(events)|..];
      if !added {
        return None, None, middle, checks, ports;
      }
      deps, plans := None, Some((delConfigToLoad.value, addConfigToLoad.value));
    }

    /** The writing half of breakOutPort. */
    method CarryOut(delPorts: seq<string>, delConfigToLoad: Json, addConfigToLoad: Json, oidMap: map<string, string>)
      returns (ret: bool, ghost poll: nat, ghost polls: seq<Event>)
      requires delConfigToLoad.Obj? && addConfigToLoad.Obj?
      modifies this`db, this`events
      ensures events == old(events) + WritingTrace(delPorts, delConfigToLoad, polls, addConfigToLoad, ret)
      ensures AllPolls(polls) && (ret ==> polls != [] && polls[|polls| - 1] == Polled(true))
      ensures ret <==> exists i: nat :: i + 1 < MAX_WAIT && PollSeesNone(asic, i, delPorts, oidMap)
      ensures ret ==> PollSeesNone(asic, poll, delPorts, oidMap)
      ensures ret && GoneStaysGone(asic) ==> AbsentFrom(asic, poll, |delPorts|, delPorts, oidMap)
      ensures db == if ret then ThreeWrites(old(db), delPorts, delConfigToLoad, addConfigToLoad)
                    else TwoWrites(old(db), delPorts, delConfigToLoad)
    {
      ShutdownIntf(delPorts);
      WriteConfigDB(delConfigToLoad);
      ghost var deleted := events;
      ret, poll := VerifyAsicDB(delPorts, oidMap, MAX_WAIT);
      polls := events[|deleted|..];
      assert events == deleted + polls;
      if ret {
        WriteConfigDB(addConfigToLoad);
        if GoneStaysGone(asic) {
          PollIsFinal(asic, poll, delPorts, oidMap);
        }
      }
    }

    /** breakOutPort. oidMap is the port to OID map read before the first write, None if that fails.
        Either the run stops before any write, and Config DB is as it was; or both plans were
        validated first, and the writes come in order: shutdown, deletion, and, only after a poll
        saw every deleted port gone, the addition.
     */
    method BreakOutPort(delPorts: seq<string>, portJson: Document, force: bool, loadDefConfig: bool,
                        defaults: Option<Document>, oidMap: Option<map<string, string>>)
      returns (deps: Option<seq<string>>, ret: bool, ghost run: Run, ghost ports: seq<string>)
      requires DiffsRight()
      modifies this
      ensures run.Started? <==>
        && CanPlan(old(tree), old(configdbJsonIn), delPorts, force, portJson, loadDefConfig, defaults, ports)
        && oidMap.Some?
      ensures run.Stopped? ==> !ret && db == old(db) && events == old(events) + run.checks && NoWrites(run.checks)
      ensures Reported(yang, old(tree), delPorts, force, deps, run.Stopped?)
      ensures run.Started? ==>
        && events == old(events) + [Validated(run.middle), Validated(tree)]
                     + WritingTrace(delPorts, run.delPlan, run.polls, run.addPlan, ret)
        && yang.valid(run.middle) && yang.valid(tree)
        && Emptied(yang, old(tree), delPorts, run.middle)
        && configdbJsonIn == run.middle && configdbJsonOut.Some? && yang.loadData(configdbJsonOut.value) == Some(tree)
        && Some(run.delPlan) == PlanFor(old(configdbJsonIn), run.middle)
        && Some(run.addPlan) == PlanFor(run.middle, configdbJsonOut.value)
        && IsTarget(configdbJsonOut.value, run.middle, portJson, loadDefConfig, defaults, ports)
        && AllPolls(run.polls) && (ret ==> run.polls != [] && run.polls[|run.polls| - 1] == Polled(true))
        && oidMap.Some?
        && (ret <==> exists i: nat :: i + 1 < 60 && PollSeesNone(asic, i, delPorts, oidMap.value))
      ensures run.Started? && !ret ==> db == TwoWrites(old(db), delPorts, run.delPlan)
      ensures ret ==> run.Started? && PollSeesNone(asic, run.poll, delPorts, oidMap.value)
      ensures ret && GoneStaysGone(asic) ==> AbsentFrom(asic, run.poll, |delPorts|, delPorts, oidMap.value)
      ensures run.Started? && !ret && Begins(old(db), old(configdbJsonIn), run.middle, delPorts) ==>
        (db == Landed(Some(old(db)), Unpadded(old(configdbJsonIn), run.middle), 0) <==>
          Supported(jsondiff(old(configdbJsonIn), run.middle), ShutDown(old(db), delPorts),
                    old(configdbJsonIn), run.middle, 0))
      ensures ret && Shape(configdbJsonOut.value, 0) && Begins(old(db), old(configdbJsonIn), run.middle, delPorts)
              && DeleteFits(old(db), old(configdbJsonIn), run.middle, delPorts) ==>
        var between := Landed(Some(old(db)), run.middle, 0);
        var target := Landed(Some(between), Unpadded(run.middle, configdbJsonOut.value), 0);
        && (db == target <==>
              Supported(jsondiff(run.middle, configdbJsonOut.value), between, run.middle, configdbJsonOut.value, 0))
        && Settled(target, Unpadded(run.middle, configdbJsonOut.value), 0)
    {
      ghost var running, start := configdbJsonIn, db;
      ghost var middle, checks, poll, polls;
      var plans;
      deps, plans, middle, checks, ports := PlanOut(delPorts, portJson, force, loadDefConfig, defaults);
      if plans.None? || oidMap.None? {
        return deps, false, Stopped(checks), ports;
      }
      ret, poll, polls := CarryOut(delPorts, plans.value.0, plans.value.1, oidMap.value);
      run := Started(middle, plans.value.0, plans.value.1, polls, poll);
      RunLands(start, running, middle, configdbJsonOut.value, delPorts);
    }

    /** Where the writes of a run lead with the two plans that it made */
    lemma RunLands(start: Document, running: Document, middle: Document, final: Document, ports: seq<string>)
      requires DiffsRight()
      requires PlanFor(running, middle).Some? && PlanFor(middle, final).Some?
      ensures Begins(start, running, middle, ports) ==>
        (TwoWrites(start, ports, PlanFor(running, middle).value)
           == Landed(Some(start), Unpadded(running, middle), 0)
         <==> Supported(jsondiff(running, middle), ShutDown(start, ports), running, middle, 0))
      ensures Begins(start, running, middle, ports) && DeleteFits(start, running, middle, ports) && Shape(final, 0) ==>
        var between := Landed(Some(start), middle, 0);
        var target := Landed(Some(between), Unpadded(middle, final), 0);
        && (ThreeWrites(start, ports, PlanFor(running, middle).value, PlanFor(middle, final).value) == target
            <==> Supported(jsondiff(middle, final), between, middle, final, 0))
        && Settled(target, Unpadded(middle, final), 0)
    {
      if Begins(start, running, middle, ports) {
        TwoWritesLandIff(start, ports, jsondiff(running, middle), running, middle);
        if DeleteFits(start, running, middle, ports) && Shape(final, 0) {
          ThreeWritesLandIff(start, ports, jsondiff(running, middle), running, middle, jsondiff(middle, final), final);
        }
      }
    }
  }

  lemma DependenciesFail(yang: YangLib, tree: Document, ports: seq<string>, i: nat)
    requires i <= |ports| && AllDependencies(yang, tree, ports[..i]).None?
    ensures AllDependencies(yang, tree, ports).None?
    decreases |ports| - i
  {
    if i < |ports| {
      assert ports[..i + 1][..i] == ports[..i];
      DependenciesFail(yang, tree, ports, i + 1);
    } else {
      assert ports[..i] == ports;
    }
  }
}
