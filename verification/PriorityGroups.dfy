/** Buffer priority groups of a port and the port's pfc_enable string, which must name exactly the
    ids of the port's lossless groups.
 */
module PriorityGroups {
  import opened JsonTree
  import opened Decimal
  import opened Columns

  // ---------- Id maps ----------

  /** The text before the first dash, and the rest. */
  function UntilDash(s: string): (r: (string, string))
    ensures s == r.0 + r.1 && '-' !in r.0 && (r.1 == "" || r.1[0] == '-')
  {
    if s == "" || s[0] == '-' then ("", s)
    else var (a, b) := UntilDash(s[1..]); ([s[0]] + a, b)
  }

  /** _parse_object_id: the bounds of a map such as 3-4 or 7, None if it is malformed. */
  function Ids(s: string): Option<(nat, nat)> {
    var (lower, rest) := UntilDash(s);
    if !AllDigits(lower) then None
    else if rest == "" then Some((Value(lower), Value(lower)))
    else if !AllDigits(rest[1..]) then None
    else Some((Value(lower), Value(rest[1..])))
  }

  predicate Within(bounds: (int, int), i: nat) {
    bounds.0 <= i <= bounds.1
  }

  function Between(bounds: (int, int)): set<nat> {
    set i: nat | i <= bounds.1 && Within(bounds, i)
  }

  lemma OneMoreId(lower: nat, i: nat)
    requires lower <= i
    ensures Between((lower, i)) == Between((lower, i - 1)) + {i}
  {
    forall k: nat ensures k in Between((lower, i)) <==> k in Between((lower, i - 1)) + {i} {
      assert Within((lower, i), k) <==> Within((lower, i - 1), k) || k == i;
    }
  }

  lemma NoIds(bounds: (int, int))
    requires bounds.1 < bounds.0
    ensures Between(bounds) == {}
  {
  }

  function Shifted(s: set<nat>, change: set<nat>, add: bool): set<nat> {
    if add then s + change else s - change
  }

  /** The ids of a map. */
  function Range(s: string): set<nat> {
    if Ids(s).None? then {} else Between(Ids(s).value)
  }

  /** What adjust_pfc_enable takes for the bounds: the first and the last character. */
  function Ends(s: string): (nat, nat)
    requires Ids(s).Some?
  {
    EndsAreDigits(s);
    (DigitValue(s[0]), DigitValue(s[|s| - 1]))
  }

  lemma EndsAreDigits(s: string)
    requires Ids(s).Some?
    ensures s != "" && IsDigit(s[0]) && IsDigit(s[|s| - 1])
    ensures s[0] == UntilDash(s).0[0]
  {
    var (lower, rest) := UntilDash(s);
    assert s[0] == lower[0] && lower[0] in lower;
    if rest == "" {
      assert s == lower;
    } else {
      assert s[|s| - 1] == rest[1..][|rest| - 2];
    }
  }

  /** The lower bound is written with one digit and the upper one is below ten. */
  predicate SingleDigit(s: string) {
    Ids(s).Some? && |UntilDash(s).0| == 1 && Ids(s).value.1 < 10
  }

  lemma LastDigit(s: string)
    requires AllDigits(s)
    ensures DigitValue(s[|s| - 1]) == Value(s) <==> Value(s) < 10
  {
    var front := s[..|s| - 1];
    assert forall c | c in front :: c in s;
    assert Value(s) == 10 * Value(front) + DigitValue(s[|s| - 1]);
  }

  lemma FirstDigit(s: string)
    requires AllDigits(s) && Value(s) > 0
    ensures DigitValue(s[0]) == Value(s) <==> |s| == 1
  {
    if |s| == 1 {
      assert s[..0] == "";
    } else {
      LongNumeral(s);
      assert s[0] in s;
    }
  }

  lemma {:induction false} LongNumeral(s: string)
    requires AllDigits(s) && |s| > 1
    ensures s[0] != '0' ==> Value(s) >= 10
  {
    var front := s[..|s| - 1];
    assert forall c | c in front :: c in s;
    assert Value(s) == 10 * Value(front) + DigitValue(s[|s| - 1]);
    if s[0] != '0' { PositiveValue(front); }
  }

  /** The two characters give the right bounds exactly for maps with single-digit ids. */
  lemma EndsAgreeIff(s: string)
    requires Ids(s).Some? && Ids(s).value.0 > 0
    ensures Ends(s) == Ids(s).value <==> SingleDigit(s)
  {
    var (lower, rest) := UntilDash(s);
    EndsAreDigits(s);
    FirstDigit(lower);
    if rest == "" {
      assert s == lower;
      LastDigit(lower);
    } else {
      LastDigit(rest[1..]);
      assert s[|s| - 1] == rest[1..][|rest| - 2];
    }
  }

  lemma {:induction false} UntilDashIs(a: string, rest: string)
    requires '-' !in a && (rest == "" || rest[0] == '-')
    ensures UntilDash(a + rest) == (a, rest)
  {
    if a == "" {
      assert a + rest == rest;
    } else {
      assert (a + rest)[1..] == a[1..] + rest;
      assert forall c | c in a[1..] :: c in a;
      UntilDashIs(a[1..], rest);
      assert (a + rest)[0] == a[0] && a[0] in a;
      assert [a[0]] + a[1..] == a;
    }
  }

  /** A map names the ids from its one or its first number to its last. */
  lemma IdsOfMap(a: string, b: string)
    requires AllDigits(a) && AllDigits(b)
    ensures Ids(a) == Some((Value(a), Value(a))) && Range(a) == {Value(a)}
    ensures Ids(a + "-" + b) == Some((Value(a), Value(b)))
    ensures forall i: nat :: i in Range(a + "-" + b) <==> Value(a) <= i <= Value(b)
  {
    UntilDashIs(a, "");
    UntilDashIs(a, "-" + b);
    assert a + "" == a && a + "-" + b == a + ("-" + b);
    assert ("-" + b)[1..] == b;
    forall i: nat ensures i in Range(a) <==> i == Value(a) {
      assert Within((Value(a), Value(a)), i) <==> i == Value(a);
    }
    forall i: nat ensures i in Range(a + "-" + b) <==> Value(a) <= i <= Value(b) {
      assert Within((Value(a), Value(b)), i) <==> Value(a) <= i <= Value(b);
    }
  }

  // ---------- pfc_enable ----------

  /** Every item is a numeral. */
  predicate Readable(pfc: string) {
    pfc != "" ==> forall x | x in Split(pfc) :: AllDigits(x)
  }

  /** The numerals among the items, as numbers. */
  function Values(items: seq<string>): set<nat> {
    set x | x in items && AllDigits(x) :: Value(x)
  }

  function Enabled(pfc: string): set<nat> {
    if pfc == "" then {} else Values(Split(pfc))
  }

  /** str(priority) + "," for each of them, without the last comma. */
  function Written(priorities: seq<nat>): string {
    if priorities == [] then "" else Join(Numerals(priorities))
  }

  function Numerals(priorities: seq<nat>): (items: seq<string>)
    ensures |items| == |priorities|
  {
    seq(|priorities|, i requires 0 <= i < |priorities| => Digits(priorities[i]))
  }

  /** Reading back what was written gives the same set. */
  lemma WrittenReadBack(priorities: seq<nat>)
    ensures Readable(Written(priorities)) && Enabled(Written(priorities)) == set p | p in priorities
  {
    var items := Numerals(priorities);
    forall x | x in items ensures NoComma(x) && AllDigits(x) {
    }
    if priorities != [] {
      SplitJoin(items);
      NumeralsNonempty(priorities);
      forall p | p in priorities ensures p in Enabled(Written(priorities)) {
        var i :| 0 <= i < |priorities| && priorities[i] == p;
        assert items[i] in items;
        ValueOfDigits(p);
      }
      forall p | p in Enabled(Written(priorities)) ensures p in priorities {
        var x :| x in items && Value(x) == p;
        var i :| 0 <= i < |items| && items[i] == x;
        ValueOfDigits(priorities[i]);
      }
    }
  }

  lemma NumeralsNonempty(priorities: seq<nat>)
    requires priorities != []
    ensures Written(priorities) != ""
  {
    assert Numerals(priorities)[0] == Digits(priorities[0]);
  }

  // ---------- The commands ----------

  const LOSSY := "ingress_lossy_profile"

  datatype Profile = Profile(xoff: bool, size: bool, pool: Option<string>)

  /** (port, id map) */
  type Group = (string, string)
  type Groups = map<Group, Option<string>>

  predicate Lossless(profile: Option<string>) {
    profile != Some(LOSSY)
  }

  /** The ids of the port's lossless groups. */
  function LosslessIds(pgs: Groups, port: string): set<nat> {
    set g, i | g in pgs && g.0 == port && Lossless(pgs[g]) && i in Range(g.1) :: i
  }

  predicate WellFormed(ids: string) {
    Ids(ids).Some? && Ids(ids).value.0 <= Ids(ids).value.1
  }

  predicate AllWellFormed(pgs: Groups) {
    forall g | g in pgs :: WellFormed(g.1)
  }

  /** The groups of each port have disjoint ranges. */
  predicate Apart(pgs: Groups) {
    forall g, h | g in pgs && h in pgs && g != h && g.0 == h.0 :: Range(g.1) !! Range(h.1)
  }

  predicate SingleDigits(pgs: Groups) {
    forall g | g in pgs :: SingleDigit(g.1) && (Lossless(pgs[g]) ==> Ids(g.1).value.0 > 0)
  }

  lemma LosslessAfterSet(pgs: Groups, port: string, ids: string, profile: Option<string>)
    requires Lossless(profile)
    ensures LosslessIds(pgs[(port, ids) := profile], port) == LosslessIds(pgs, port) + Range(ids)
    ensures forall other | other != port :: LosslessIds(pgs[(port, ids) := profile], other) == LosslessIds(pgs, other)
  {
    var after := pgs[(port, ids) := profile];
    forall i | i in LosslessIds(after, port) ensures i in LosslessIds(pgs, port) + Range(ids) {
      var g :| g in after && g.0 == port && Lossless(after[g]) && i in Range(g.1);
      assert g != (port, ids) ==> g in pgs;
    }
    forall i | i in LosslessIds(pgs, port) + Range(ids) ensures i in LosslessIds(after, port) {
      if i in Range(ids) {
        assert (port, ids) in after;
      } else {
        var g :| g in pgs && g.0 == port && Lossless(pgs[g]) && i in Range(g.1);
        assert g in after;
      }
    }
    forall other | other != port ensures LosslessIds(after, other) == LosslessIds(pgs, other) {
      SameElsewhere(pgs, after, other);
    }
  }

  lemma SameElsewhere(a: Groups, b: Groups, port: string)
    requires forall g: Group | g.0 == port :: (g in a <==> g in b) && (g in a ==> a[g] == b[g])
    ensures LosslessIds(a, port) == LosslessIds(b, port)
  {
    forall i ensures i in LosslessIds(a, port) <==> i in LosslessIds(b, port) {
      if i in LosslessIds(a, port) {
        var g :| g in a && g.0 == port && Lossless(a[g]) && i in Range(g.1);
        assert g in b;
      }
      if i in LosslessIds(b, port) {
        var g :| g in b && g.0 == port && Lossless(b[g]) && i in Range(g.1);
        assert g in a;
      }
    }
  }

  lemma LosslessAfterRemove(pgs: Groups, port: string, ids: string)
    requires Apart(pgs) && (port, ids) in pgs && Lossless(pgs[(port, ids)])
    ensures LosslessIds(pgs - {(port, ids)}, port) == LosslessIds(pgs, port) - Range(ids)
  {
    var after := pgs - {(port, ids)};
    forall i | i in LosslessIds(after, port) ensures i in LosslessIds(pgs, port) - Range(ids) {
      StaysLossless(pgs, port, ids, i);
    }
    forall i | i in LosslessIds(pgs, port) - Range(ids) ensures i in LosslessIds(after, port) {
      StillLossless(pgs, port, ids, i);
    }
  }

  lemma StillLossless(pgs: Groups, port: string, ids: string, i: nat)
    requires i in LosslessIds(pgs, port) && i !in Range(ids)
    ensures i in LosslessIds(pgs - {(port, ids)}, port)
  {
    var g :| g in pgs && g.0 == port && Lossless(pgs[g]) && i in Range(g.1);
    assert g.1 != ids;
    assert g in pgs - {(port, ids)};
  }

  lemma StaysLossless(pgs: Groups, port: string, ids: string, i: nat)
    requires Apart(pgs) && (port, ids) in pgs && i in LosslessIds(pgs - {(port, ids)}, port)
    ensures i in LosslessIds(pgs, port) && i !in Range(ids)
  {
    var after := pgs - {(port, ids)};
    var g :| g in after && g.0 == port && Lossless(after[g]) && i in Range(g.1);
    assert g in pgs && g != (port, ids);
    assert Range(g.1) !! Range(ids);
  }

  lemma ApartAfterSet(pgs: Groups, port: string, ids: string, profile: Option<string>)
    requires Apart(pgs)
    requires (port, ids) in pgs || forall g | g in pgs && g.0 == port :: Range(g.1) !! Range(ids)
    ensures Apart(pgs[(port, ids) := profile])
  {
    var after := pgs[(port, ids) := profile];
    forall g, h | g in after && h in after && g != h && g.0 == h.0 ensures Range(g.1) !! Range(h.1) {
      assert g != (port, ids) ==> g in pgs;
      assert h != (port, ids) ==> h in pgs;
    }
  }

  predicate Selects(pgs: Groups, port: string, ids: string, g: Group)
    requires g in pgs
  {
    g.0 == port && Lossless(pgs[g]) && (ids == "" || g.1 == ids)
  }

  /** The lossless groups of the port, or the one with the given map. */
  function Removable(pgs: Groups, port: string, ids: string): set<Group> {
    set g | g in pgs && Selects(pgs, port, ids, g)
  }

  lemma RemovableStep(pgs: Groups, port: string, ids: string, todo: set<Group>, k: Group)
    requires k in todo && k in pgs
    ensures var gone := Removable(pgs, port, ids) - todo; var after := Removable(pgs, port, ids) - (todo - {k});
      if Selects(pgs, port, ids, k) then after == gone + {k} && after != {}
        && pgs - after == pgs - gone - {k} else after == gone
  {
    var gone := Removable(pgs, port, ids) - todo;
    var after := Removable(pgs, port, ids) - (todo - {k});
    if Selects(pgs, port, ids, k) {
      assert k in after;
      assert after == gone + {k};
    }
  }

  lemma NoneLeft(pgs: Groups, port: string)
    ensures LosslessIds(pgs - Removable(pgs, port, ""), port) == {}
  {
  }

  lemma OneRemovable(pgs: Groups, port: string, ids: string)
    requires ids != ""
    ensures Removable(pgs, port, ids) == if (port, ids) in pgs && Lossless(pgs[(port, ids)]) then {(port, ids)} else {}
  {
  }

  function TextOf(pfc: map<string, string>, port: string): string {
    if port in pfc then pfc[port] else ""
  }

  function Adjusted(enabled: set<nat>, pgMap: string, add: bool): set<nat>
    requires pgMap != "" ==> Ids(pgMap).Some?
  {
    if pgMap == "" then {} else Shifted(enabled, Between(Ends(pgMap)), add)
  }

  /** pfc_enable says exactly which ids are lossless. */
  ghost predicate Agree(pgs: Groups, pfc: map<string, string>) {
    forall port :: Readable(TextOf(pfc, port)) && Enabled(TextOf(pfc, port)) == LosslessIds(pgs, port)
  }

  /** The ranges of each port are disjoint, and pfc_enable agrees with them. */
  ghost predicate ConsistentState(pgs: Groups, pfc: map<string, string>) {
    AllWellFormed(pgs) && Apart(pgs) && SingleDigits(pgs) && Agree(pgs, pfc)
  }

  predicate OnlyPort(before: map<string, string>, after: map<string, string>, port: string) {
    forall other | other in before.Keys + after.Keys && other != port :: TextOf(after, other) == TextOf(before, other)
  }

  lemma OnlyPortAgain(a: map<string, string>, b: map<string, string>, c: map<string, string>, port: string)
    requires OnlyPort(a, b, port) && OnlyPort(b, c, port)
    ensures OnlyPort(a, c, port)
  {
  }

  lemma AllReadable(before: map<string, string>, after: map<string, string>, port: string)
    requires OnlyPort(before, after, port) && Readable(TextOf(after, port)) && forall p :: Readable(TextOf(before, p))
    ensures forall p :: Readable(TextOf(after, p))
  {
    forall p ensures Readable(TextOf(after, p)) {
      assert p != port ==> TextOf(after, p) == TextOf(before, p);
    }
  }

  lemma AgreeAgain(pgs: Groups, after: Groups, pfc: map<string, string>, pfcAfter: map<string, string>, port: string)
    requires Agree(pgs, pfc) && OnlyPort(pfc, pfcAfter, port)
    requires Readable(TextOf(pfcAfter, port)) && Enabled(TextOf(pfcAfter, port)) == LosslessIds(after, port)
    requires forall g: Group | g.0 != port :: (g in after <==> g in pgs) && (g in after ==> after[g] == pgs[g])
    ensures Agree(after, pfcAfter)
  {
    forall other | other != port
      ensures Readable(TextOf(pfcAfter, other)) && Enabled(TextOf(pfcAfter, other)) == LosslessIds(after, other)
    {
      assert TextOf(pfcAfter, other) == TextOf(pfc, other);
      SameElsewhere(pgs, after, other);
    }
  }

  /** A map that is not single-digit enables an id below its range, or has ids that no digit can enable. */
  lemma EndsMiss(ids: string) returns (i: nat)
    requires WellFormed(ids) && Ids(ids).value.0 > 0 && !SingleDigit(ids)
    ensures (i == 0 && i in Between(Ends(ids)) && i !in Range(ids))
      || (i >= 10 && i in Range(ids) && i !in Between(Ends(ids)))
  {
    var (lower, upper) := Ids(ids).value;
    var text := UntilDash(ids).0;
    EndsAreDigits(ids);
    if text[0] == '0' {
      i := 0;
      assert Within(Ends(ids), 0) && !Within((lower, upper), 0);
    } else {
      if |text| > 1 { LongNumeral(text); }
      i := upper;
      assert Within((lower, upper), upper) && !Within(Ends(ids), upper);
    }
  }

  lemma LosslessIdsSmall(pgs: Groups, port: string)
    requires SingleDigits(pgs)
    ensures forall i | i in LosslessIds(pgs, port) :: 0 < i < 10
  {
    forall i | i in LosslessIds(pgs, port) ensures 0 < i < 10 {
      var g :| g in pgs && g.0 == port && Lossless(pgs[g]) && i in Range(g.1);
      assert SingleDigit(g.1) && Within(Ids(g.1).value, i);
    }
  }

  /** After a lossless group is set and its ends are enabled, pfc_enable agrees with the groups exactly
      if the map is single-digit.
   */
  lemma SetAgreesIff(pgs: Groups, pfc: map<string, string>, pfcAfter: map<string, string>, port: string, ids: string,
                     profile: Option<string>)
    requires ConsistentState(pgs, pfc) && Lossless(profile) && WellFormed(ids) && Ids(ids).value.0 > 0
    requires OnlyPort(pfc, pfcAfter, port) && Readable(TextOf(pfcAfter, port))
    requires Enabled(TextOf(pfcAfter, port)) == Adjusted(Enabled(TextOf(pfc, port)), ids, true)
    ensures Agree(pgs[(port, ids) := profile], pfcAfter) <==> SingleDigit(ids)
  {
    var after := pgs[(port, ids) := profile];
    assert ids != "" by { EndsAreDigits(ids); }
    LosslessAfterSet(pgs, port, ids, profile);
    if SingleDigit(ids) {
      EndsAgreeIff(ids);
      AgreeAgain(pgs, after, pfc, pfcAfter, port);
    } else {
      LosslessIdsSmall(pgs, port);
      var i := EndsMiss(ids);
      assert i in Enabled(TextOf(pfcAfter, port)) <==> i !in LosslessIds(after, port);
    }
  }

  /** Setting a lossless group with a single-digit map keeps the state consistent. */
  lemma SetKeepsConsistent(pgs: Groups, pfc: map<string, string>, pfcAfter: map<string, string>, port: string,
                           ids: string, profile: Option<string>)
    requires ConsistentState(pgs, pfc) && Lossless(profile)
    requires WellFormed(ids) && SingleDigit(ids) && Ids(ids).value.0 > 0
    requires (port, ids) in pgs || forall g | g in pgs && g.0 == port :: Range(g.1) !! Range(ids)
    requires OnlyPort(pfc, pfcAfter, port) && Readable(TextOf(pfcAfter, port))
    requires Enabled(TextOf(pfcAfter, port)) == Adjusted(Enabled(TextOf(pfc, port)), ids, true)
    ensures ConsistentState(pgs[(port, ids) := profile], pfcAfter)
  {
    SetAgreesIff(pgs, pfc, pfcAfter, port, ids, profile);
    ApartAfterSet(pgs, port, ids, profile);
  }

  /** Removing the lossless groups that a map selects and clearing their ids keeps the state consistent. */
  lemma RemoveKeepsConsistent(pgs: Groups, pfc: map<string, string>, pfcAfter: map<string, string>, port: string,
                              ids: string)
    requires ConsistentState(pgs, pfc) && Removable(pgs, port, ids) != {}
    requires ids != "" ==> Ids(ids).Some?
    requires OnlyPort(pfc, pfcAfter, port) && Readable(TextOf(pfcAfter, port))
    requires Enabled(TextOf(pfcAfter, port)) == Adjusted(LosslessIds(pgs, port), ids, false)
    ensures ConsistentState(pgs - Removable(pgs, port, ids), pfcAfter)
  {
    var after := pgs - Removable(pgs, port, ids);
    if ids == "" {
      NoneLeft(pgs, port);
    } else {
      OneRemovable(pgs, port, ids);
      EndsAgreeIff(ids);
      LosslessAfterRemove(pgs, port, ids);
    }
    AgreeAgain(pgs, after, pfc, pfcAfter, port);
  }

  /** add, set and remove of a lossless priority group */
  datatype Command =
    | Update(port: string, ids: string, profile: string, add: bool)
    | Remove(port: string, ids: string)

  /** Every map that is set has single-digit ids. */
  predicate AllSingleDigit(commands: seq<Command>) {
    forall c | c in commands && c.Update? && Ids(c.ids).Some? :: SingleDigit(c.ids)
  }

  /** A leading zero is a well-formed map of 3 and 4 whose ends are 0 and 4. */
  lemma LeadingZeroMap()
    ensures Ids("03-04") == Some((3, 4)) && Ends("03-04") == (0, 4) && WellFormed("03-04")
  {
    assert "03-04"[1..] == "3-04" && "3-04"[1..] == "-04" && "-04"[1..] == "04" && UntilDash("-04") == ("", "-04");
    assert "3" == ['3'] + "" && "03" == ['0'] + "3";
    assert UntilDash("3-04") == ("3", "-04");
    assert UntilDash("03-04") == ("03", "-04");
    assert "03"[..1] == "0" == "04"[..1] && "0"[..0] == "";
    assert Value("0") == 0 && Value("03") == 3 && Value("04") == 4;
    EndsAreDigits("03-04");
  }

  class BufferConfig {
    const ports: set<string>
    const profiles: map<string, Profile>
    /** The type of each buffer pool. */
    const pools: map<string, string>
    /** The largest group id of each port, from the state database. */
    const maximumIds: map<string, int>
    var pgs: Groups
    /** pfc_enable of the ports that have a QoS map. */
    var pfc: map<string, string>

    constructor (ports: set<string>, profiles: map<string, Profile>, pools: map<string, string>,
                 maximumIds: map<string, int>)
      ensures this.ports == ports && this.profiles == profiles && this.pools == pools && this.maximumIds == maximumIds
      ensures pgs == map[] && pfc == map[] && Consistent() && WithinMaximum()
    {
      this.ports, this.profiles, this.pools, this.maximumIds := ports, profiles, pools, maximumIds;
      pgs, pfc := map[], map[];
    }

    /** An override profile that update_buffer_object accepts for a priority group */
    predicate Acceptable(profile: string) {
      && profile in profiles && profiles[profile].pool.Some?
      && profiles[profile].pool.value in pools && pools[profiles[profile].pool.value] == "ingress"
      && (profiles[profile].xoff || !profiles[profile].size)
    }

    /** An existing profile of an ingress pool that does not make the group lossy by a size without an xoff */
    predicate IsOverride(profile: string) {
      exists name | name in pools ::
        && profile in profiles && profiles[profile].pool == Some(name) && pools[name] == "ingress"
        && !(profiles[profile].size && !profiles[profile].xoff)
    }

    /** The lossy profile has a size and no xoff. */
    predicate LossyIsLossy() {
      LOSSY in profiles ==> profiles[LOSSY].size && !profiles[LOSSY].xoff
    }

    predicate Legal(pgs: Groups, port: string, inputMap: string, isNewId: bool) {
      && port in maximumIds && Ids(inputMap).Some?
      && 0 < Ids(inputMap).value.0 <= Ids(inputMap).value.1 <= maximumIds[port]
      && (if isNewId then forall g | g in pgs && g.0 == port ::
        Range(g.1) !! Range(inputMap) else (port, inputMap) in pgs)
    }

    ghost predicate Consistent()
      reads this
    {
      ConsistentState(pgs, pfc)
    }

    /** What the commands need to read the tables at all */
    ghost predicate Structured()
      reads this
    {
      AllWellFormed(pgs) && Apart(pgs) && forall port :: Readable(TextOf(pfc, port))
    }

    /** No group has an id of 0 or one above the maximum of its port. */
    ghost predicate WithinMaximum()
      reads this
    {
      forall g | g in pgs ::
        g.0 in maximumIds && Ids(g.1).Some? && 1 <= Ids(g.1).value.0 <= Ids(g.1).value.1 <= maximumIds[g.0]
    }

    /** A map within the maximum is legal as a new one exactly if it is not there yet and the ranges of the port stay
        apart with it, whatever its profile; and as an old one if it is there.
     */
    lemma LegalIff(pgs: Groups, port: string, inputMap: string, profile: Option<string>)
      requires AllWellFormed(pgs) && Apart(pgs) && port in maximumIds && Ids(inputMap).Some?
      requires 1 <= Ids(inputMap).value.0 <= Ids(inputMap).value.1 <= maximumIds[port]
      ensures Legal(pgs, port, inputMap, true) <==>
        (port, inputMap) !in pgs && Apart(pgs[(port, inputMap) := profile])
      ensures Legal(pgs, port, inputMap, false) <==> (port, inputMap) in pgs
    {
      var after := pgs[(port, inputMap) := profile];
      assert Within(Ids(inputMap).value, Ids(inputMap).value.0);
      assert Ids(inputMap).value.0 in Range(inputMap);
      if (port, inputMap) !in pgs && Apart(after) {
        forall g | g in pgs && g.0 == port ensures Range(g.1) !! Range(inputMap) {
          assert g in after && (port, inputMap) in after;
        }
      }
      if Legal(pgs, port, inputMap, true) { ApartAfterSet(pgs, port, inputMap, profile); }
    }

    /** buffer_objects_map_check_legality for priority groups; false stands for the failure */
    method CheckLegality(port: string, inputMap: string, isNewId: bool) returns (legal: bool)
      requires AllWellFormed(pgs)
      ensures legal <==> Legal(pgs, port, inputMap, isNewId)
    {
      if port !in maximumIds {
        return false;
      }
      var bounds := Ids(inputMap);
      if bounds.None? || bounds.value.1 == 0 || bounds.value.0 == 0 || bounds.value.1 < bounds.value.0
        || bounds.value.1 > maximumIds[port] {
        return false;
      }
      if !isNewId {
        return (port, inputMap) in pgs;
      }
      legal := NoOverlap(port, inputMap);
    }

    /** The loop over the existing maps of the port. */
    method NoOverlap(port: string, inputMap: string) returns (none: bool)
      requires AllWellFormed(pgs) && WellFormed(inputMap)
      ensures none <==> forall g | g in pgs && g.0 == port :: Range(g.1) !! Range(inputMap)
    {
      var (lower, upper) := Ids(inputMap).value;
      var todo := pgs.Keys;
      while todo != {}
        invariant todo <= pgs.Keys
        invariant forall g | g in pgs.Keys && g !in todo && g.0 == port :: Misses(g.1, lower, upper)
      {
        var k :| k in todo;
        if k.0 == port {
          var (existingLower, existingUpper) := Ids(k.1).value;
          if !(existingUpper < lower || existingLower > upper) {
            OverlapIff(k.1, inputMap);
            return false;
          }
        }
        todo := todo - {k};
      }
      forall g | g in pgs && g.0 == port ensures Range(g.1) !! Range(inputMap) {
        OverlapIff(g.1, inputMap);
        assert Misses(g.1, lower, upper);
      }
      none := true;
    }

    predicate Misses(ids: string, lower: nat, upper: nat) {
      Ids(ids).Some? && (Ids(ids).value.1 < lower || Ids(ids).value.0 > upper)
    }

    lemma OverlapIff(a: string, b: string)
      requires WellFormed(a) && WellFormed(b)
      ensures Range(a) !! Range(b) <==> Ids(a).value.1 < Ids(b).value.0 || Ids(a).value.0 > Ids(b).value.1
    {
      var i := if Ids(a).value.0 <= Ids(b).value.0 then Ids(b).value.0 else Ids(a).value.0;
      if !(Ids(a).value.1 < Ids(b).value.0 || Ids(a).value.0 > Ids(b).value.1) {
        assert Within(Ids(a).value, i) && Within(Ids(b).value, i);
        assert i in Range(a) && i in Range(b);
      }
    }

    /** adjust_pfc_enable; an empty map removes everything. False stands for the failure. */
    method AdjustPfcEnable(port: string, pgMap: string, add: bool) returns (ok: bool)
      requires Readable(TextOf(pfc, port)) && (pgMap != "" ==> Ids(pgMap).Some?)
      modifies this`pfc
      ensures ok <==> pgMap != "" || !add
      ensures !ok ==> pfc == old(pfc)
      ensures ok ==> pfc.Keys == old(pfc.Keys) + {port} && OnlyPort(old(pfc), pfc, port)
      ensures ok ==> Readable(TextOf(pfc, port))
      ensures ok ==> Enabled(TextOf(pfc, port)) == Adjusted(old(Enabled(TextOf(pfc, port))), pgMap, add)
    {
      var pfcSet := ReadPfc(TextOf(pfc, port));
      var pfcEnable := "";
      if pgMap != "" {
        var (lowerBound, upperBound) := Ends(pgMap);
        pfcSet := ShiftRange(pfcSet, lowerBound, upperBound, add);
        var order := SomeOrder(pfcSet);
        pfcEnable := Written(order);
        WrittenReadBack(order);
        assert (set p | p in order) == pfcSet;
      } else if add {
        return false;
      }
      pfc := pfc[port := pfcEnable];
      ok := true;
    }

    /** The checks on the override profile of a priority group */
    method CheckProfile(overrideProfile: string) returns (accepted: bool)
      ensures accepted <==> Acceptable(overrideProfile)
    {
      if overrideProfile !in profiles || profiles[overrideProfile].pool.None? {
        return false;
      }
      var pool := profiles[overrideProfile].pool.value;
      if pool !in pools || pools[pool] != "ingress" {
        return false;
      }
      accepted := !(!profiles[overrideProfile].xoff && profiles[overrideProfile].size);
    }

    /** update_buffer_object for a priority group; no override is the empty text. */
    method UpdateBufferObject(port: string, objectMap: string, overrideProfile: string, add: bool) returns (ok: bool)
      requires Structured()
      modifies this`pgs, this`pfc
      ensures ok <==>
        port in ports && Legal(old(pgs), port, objectMap, add) && (overrideProfile == "" || Acceptable(overrideProfile))
      ensures ok <==>
        && port in ports && port in maximumIds && Ids(objectMap).Some?
        && 1 <= Ids(objectMap).value.0 <= Ids(objectMap).value.1 <= maximumIds[port]
        && ((port, objectMap) in old(pgs) <==> !add) && (add ==> Apart(old(pgs)[(port, objectMap) := None]))
        && (overrideProfile == "" || IsOverride(overrideProfile))
      ensures !ok ==> pgs == old(pgs) && pfc == old(pfc)
      ensures ok ==>
        pgs == old(pgs)[(port, objectMap) := Some(if overrideProfile == "" then "NULL" else overrideProfile)]
      ensures ok ==> OnlyPort(old(pfc), pfc, port)
      ensures ok ==> Enabled(TextOf(pfc, port)) == old(Enabled(TextOf(pfc, port))) + Between(Ends(objectMap))
      ensures Structured()
      ensures ok && old(Consistent()) && LossyIsLossy() ==> (Agree(pgs, pfc) <==> SingleDigit(objectMap))
      ensures ok && old(Consistent()) && LossyIsLossy() && SingleDigit(objectMap) ==> Consistent()
    {
      if port in maximumIds && Ids(objectMap).Some?
        && 1 <= Ids(objectMap).value.0 <= Ids(objectMap).value.1 <= maximumIds[port] {
        LegalIff(pgs, port, objectMap, None);
      }
      if port !in ports {
        return false;
      }
      var legal := CheckLegality(port, objectMap, add);
      if !legal {
        return false;
      }
      var profile := Some("NULL");
      if overrideProfile != "" {
        var accepted := CheckProfile(overrideProfile);
        if !accepted {
          return false;
        }
        profile := Some(overrideProfile);
      }
      WriteGroup(port, objectMap, profile);
      ok := true;
    }

    /** The entry of the group, and then pfc_enable. */
    method WriteGroup(port: string, objectMap: string, profile: Option<string>)
      requires Structured() && (Legal(pgs, port, objectMap, true) || Legal(pgs, port, objectMap, false))
      modifies this`pgs, this`pfc
      ensures pgs == old(pgs)[(port, objectMap) := profile]
      ensures OnlyPort(old(pfc), pfc, port)
      ensures Enabled(TextOf(pfc, port)) == old(Enabled(TextOf(pfc, port))) + Between(Ends(objectMap))
      ensures Structured()
      ensures old(Consistent()) && Lossless(profile) ==> (Agree(pgs, pfc) <==> SingleDigit(objectMap))
      ensures old(Consistent()) && Lossless(profile) && SingleDigit(objectMap) ==> Consistent()
    {
      assert objectMap != "" by { EndsAreDigits(objectMap); }
      ghost var wasConsistent := Consistent();
      ApartAfterSet(pgs, port, objectMap, profile);
      pgs := pgs[(port, objectMap) := profile];
      var ok := AdjustPfcEnable(port, objectMap, true);
      AllReadable(old(pfc), pfc, port);
      if wasConsistent && Lossless(profile) {
        SetAgreesIff(old(pgs), old(pfc), pfc, port, objectMap, profile);
        if SingleDigit(objectMap) {
          SetKeepsConsistent(old(pgs), old(pfc), pfc, port, objectMap, profile);
        }
      }
    }

    /** remove_buffer_object_on_port for priority groups; the empty map stands for all of them. */
    method RemoveBufferObject(port: string, objectMap: string) returns (ok: bool)
      requires Structured()
      modifies this`pgs, this`pfc
      ensures ok <==> port in ports && Removable(old(pgs), port, objectMap) != {}
      ensures !ok ==> pgs == old(pgs) && pfc == old(pfc)
      ensures ok ==> pgs == old(pgs) - Removable(old(pgs), port, objectMap)
      ensures forall g | g in old(pgs) ::
        (g !in pgs <==> port in ports && g.0 == port && (objectMap == "" || g.1 == objectMap)
                        && old(pgs)[g] != Some("ingress_lossy_profile"))
      ensures forall g | g in pgs :: g in old(pgs) && pgs[g] == old(pgs)[g]
      ensures ok ==> OnlyPort(old(pfc), pfc, port)
      ensures Structured() && (old(Consistent()) ==> Consistent())
    {
      if port !in ports {
        return false;
      }
      ghost var wasConsistent := Consistent();
      ok := RemoveLossless(port, objectMap);
      if ok {
        AllReadable(old(pfc), pfc, port);
        if wasConsistent {
          RemoveKeepsConsistent(old(pgs), old(pfc), pfc, port, objectMap);
        }
      }
    }

    /** Any sequence of priority group commands */
    method Run(commands: seq<Command>)
      requires Structured()
      modifies this`pgs, this`pfc
      ensures Structured()
      ensures old(WithinMaximum()) ==> WithinMaximum()
      ensures old(Consistent()) && LossyIsLossy() && AllSingleDigit(commands) ==> Consistent()
    {
      for i := 0 to |commands|
        invariant Structured()
        invariant old(WithinMaximum()) ==> WithinMaximum()
        invariant old(Consistent()) && LossyIsLossy() && AllSingleDigit(commands) ==> Consistent()
      {
        match commands[i]
        case Update(port, ids, profile, add) =>
          assert commands[i] in commands;
          var ok := UpdateBufferObject(port, ids, profile, add);
        case Remove(port, ids) =>
          var ok := RemoveBufferObject(port, ids);
      }
    }

    /** Adding 03-04 to a port without groups is accepted, and then pfc_enable names priority 0, which no
        group of the port has.
     */
    method AddLeadingZero(port: string) returns (ok: bool)
      requires Consistent() && LossyIsLossy() && port in ports && port in maximumIds && maximumIds[port] >= 4
      requires forall g | g in pgs :: g.0 != port
      modifies this`pgs, this`pfc
      ensures ok && !Agree(pgs, pfc)
      ensures 0 in Enabled(TextOf(pfc, port)) && 0 !in LosslessIds(pgs, port)
    {
      LeadingZeroMap();
      EndsAgreeIff("03-04");
      ok := UpdateBufferObject(port, "03-04", "", true);
      assert Within((0, 4), 0);
      forall g | g in pgs && g.0 == port ensures 0 !in Range(g.1) {
        assert g == (port, "03-04");
      }
    }

    /** The loop over the groups that the command reads first. */
    method RemoveLossless(port: string, objectMap: string) returns (removed: bool)
      requires Readable(TextOf(pfc, port)) && AllWellFormed(pgs)
      modifies this`pgs, this`pfc
      ensures removed <==> Removable(old(pgs), port, objectMap) != {}
      ensures pgs == old(pgs) - Removable(old(pgs), port, objectMap)
      ensures !removed ==> pfc == old(pfc)
      ensures removed ==>
        (objectMap != "" ==> Ids(objectMap).Some?) && OnlyPort(old(pfc), pfc, port) && Readable(TextOf(pfc, port))
      ensures removed ==> Enabled(TextOf(pfc, port)) == Adjusted(old(Enabled(TextOf(pfc, port))), objectMap, false)
    {
      removed := false;
      var existing := pgs;
      var todo := existing.Keys;
      while todo != {}
        invariant todo <= existing.Keys
        invariant pgs == existing - (Removable(existing, port, objectMap) - todo)
        invariant removed <==> Removable(existing, port, objectMap) - todo != {}
        invariant !removed ==> pfc == old(pfc)
        invariant removed ==> objectMap != "" ==> Ids(objectMap).Some?
        invariant OnlyPort(old(pfc), pfc, port) && Readable(TextOf(pfc, port))
        invariant removed ==> Enabled(TextOf(pfc, port)) == Adjusted(old(Enabled(TextOf(pfc, port))), objectMap, false)
      {
        var k :| k in todo;
        RemovableStep(existing, port, objectMap, todo, k);
        ghost var before := pfc;
        if k.0 == port && (objectMap == "" || objectMap == k.1) {
          if existing[k] == Some(LOSSY) {
            if objectMap != "" {
              OneRemovable(existing, port, objectMap);
              assert Removable(existing, port, objectMap) == {} && pgs == existing;
              return false;
            }
          } else {
            pgs := pgs - {k};
            var adjusted := AdjustPfcEnable(port, objectMap, false);
            OnlyPortAgain(old(pfc), before, pfc, port);
            removed := true;
          }
        }
        todo := todo - {k};
      }
      assert Removable(existing, port, objectMap) - todo == Removable(existing, port, objectMap);
    }
  }

  /** The loop over the priorities of a map. */
  method ShiftRange(before: set<nat>, lowerBound: nat, upperBound: nat, add: bool) returns (pfcSet: set<nat>)
    ensures pfcSet == Shifted(before, Between((lowerBound, upperBound)), add)
  {
    pfcSet := before;
    var priority := lowerBound;
    while priority <= upperBound
      invariant lowerBound <= priority && (priority == lowerBound || priority <= upperBound + 1)
      invariant pfcSet == Shifted(before, Between((lowerBound, priority - 1)), add)
      decreases upperBound + 1 - priority
    {
      OneMoreId(lowerBound, priority);
      if add {
        pfcSet := pfcSet + {priority};
      } else if priority in pfcSet {
        pfcSet := pfcSet - {priority};
      }
      priority := priority + 1;
    }
    assert Between((lowerBound, priority - 1)) == Between((lowerBound, upperBound)) by {
      if upperBound < lowerBound {
        NoIds((lowerBound, upperBound));
        NoIds((lowerBound, lowerBound - 1));
      }
    }
  }

  lemma OneMoreValue(items: seq<string>, i: nat)
    requires i < |items| && AllDigits(items[i])
    ensures Values(items[..i + 1]) == Values(items[..i]) + {Value(items[i])}
  {
    assert items[..i + 1] == items[..i] + [items[i]];
    forall v ensures v in Values(items[..i + 1]) <==> v in Values(items[..i]) + {Value(items[i])} {
      if v in Values(items[..i + 1]) {
        var x :| x in items[..i + 1] && AllDigits(x) && Value(x) == v;
        assert x != items[i] ==> x in items[..i];
      }
      if v in Values(items[..i]) {
        var x :| x in items[..i] && AllDigits(x) && Value(x) == v;
        assert x in items[..i + 1];
      }
      assert items[i] in items[..i + 1];
    }
  }

  /** The priorities that pfc_enable names. */
  method ReadPfc(text: string) returns (pfcSet: set<nat>)
    requires Readable(text)
    ensures pfcSet == Enabled(text)
  {
    pfcSet := {};
    if text != "" {
      var items := Split(text);
      for i := 0 to |items|
        invariant pfcSet == Values(items[..i])
      {
        assert items[i] in items;
        OneMoreValue(items, i);
        pfcSet := pfcSet + {Value(items[i])};
      }
      assert items[..|items|] == items;
    }
  }
}
