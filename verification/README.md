# Configuration management of the SONiC switch utilities, modelled and proved

Config DB is a map from tables to entries to fields, and nearly every command of these utilities is a
program over it. This project models the most intricate of these programs in Dafny and proves what they
are for. `dafny verify dfyconfig.toml` checks everything.

## What is modelled

* **Config DB** (`JsonTree.dfy`, `ConfigStore.dfy`). Configs are trees of objects, lists, strings and nulls;
  the store has `set_entry`, `mod_entry`, `mod_config` and the deletion of a table. A table without keys
  does not exist.
* **Dynamic port breakout** (`PortBreakoutPlan.dfy`, `PortBreakoutConfig.dfy`, `PortBreakout.dfy`). A diff is
  a datatype (a changed-children map with inserts and deletes, list edits, `[old, new]` replacements), related
  to its two configs by `IsDiff`. `Compile` says what the recursive compiler makes of it and `Landed` where
  the new config stands in the store; the compiler's loops, the recursive search and the recursive merge are
  methods proved against these. The class `ConfigMgmtDPB` runs the protocol against an ASIC view in which
  every lookup of every poll may see another state, and logs each validation, write and poll.
* **Generic config updater** (`JsonPatch.dfy`, `ConfigUpdater.dfy`, `ValidatedConnector.dfy`). Layered
  refinement: the entry writes of the validated connector become JSON patches (RFC 6902, with the pointers of
  RFC 6901), these are simulated, sorted, applied change by change and compared, and at the top everything
  is a plain map operation, a replace, or a rollback to a saved config.
* **ACL loader** (`Decimal.dfy`, `AclRules.dfy`, `AclLoader.dfy`). Ordered sets of entries are compiled to
  prioritised rules, and installed by the full or the incremental algorithm into a global database and its
  replicas; every write of every database is logged.
* **Static routes** (`Columns.dfy`, `StaticRoutes.dfy`). Five comma-joined columns refine a sequence of
  records.
* **Buffer priority groups** (`PriorityGroups.dfy`). The id ranges of a port and its `pfc_enable` text.
* **VLAN, VNI and VRF** (`VniMaps.dfy`), **NAT** (`Nat.dfy`) and **port roles** (`PortRoles.dfy`). Each is a
  state machine whose step function `After` is the specification of the command methods, with an invariant
  proved for every reachable state. `VlanTables.dfy` runs the first and the last on one VLAN table.
* **Key cache of the dump utility** (`KeyCache.dfy`). The optimizer with its cache against the engine
  without one.

Several promises do not hold everywhere in the code. The code is modelled as it is, and the exact condition
is proved: the breakout payload (`PayloadLandsIffSupported`), the priority of the first dict of a merge
(`MergeKeepsFirst`), patches that are reported as partly applied (`StillDifferentIff`), first match of the
compiled rules (`FirstMatchIff`), restricted ACL updates (`RestrictedUpdatesAgreeIff`), validated
calls (`ValidatedMeansPlainIff`), keys that are found (`FoundIffNonempty`), a repeated search
(`SearchIdempotentIff`), columns in step (`AlignedIffNoComma`), `pfc_enable` after a lossless group is
set (`SetAgreesIff`), VNIs with leading zeros (`SafeIffCanonical`), twice NAT ids over all tables
(`TotalKeptIff`), subinterfaces in port channels (`RouterJoinsIff`), cache hits and misses (`HitAgreesIff`,
`MissAgreesIff`). An empty key makes `set_entry` delete a whole table (`EmptyKeyDeletesTable`). A success of
the ASIC poll in its last round counts as a failure (`VerifyAsicDB`), which the documentation of that function
does not say.

## Contracts of what lies outside

These are parameters with a stated contract, not modelled further.

* `jsondiff`: the diff it gives of two configs satisfies `IsDiff` (`DiffsRight`).
* The YANG library: finding, dependencies, deletion, loading and validity are uninterpreted functions of the
  data tree; its dependencies are reported, not interpreted.
* The ASIC database: any sequence of views. Only where a claim needs it, ports that are gone stay gone.
* The patch sorter: it accepts only patches whose result is tables of entries of fields, each of its changes
  applies and leads to such a document again, and the changes, applied in order with empty tables pruned and
  each result kept by the store, end at the patch's own result as the store keeps it (`SorterSound`); otherwise
  it refuses. `make_patch` gives a patch that leads from one config to the other (`MakePatchSound`). The check
  of permitted field changes is any predicate.
* `FormatConverter` and `deep_update` of the config generator: `writeConfigDB` hands its document to
  `mod_config` unchanged.
* The converters of ACL fields: one function of the table and the entry that may fail and never sets a
  priority (`NeverPriority`), which is what all of them do.
* `get_interface_table_name` and the naming of ports and port channels (`Naming`).
* The data source of the match engine: only existing keys match (`Faithful`).
* Counters, mirror sessions, speeds, MTUs, TPIDs, ACL and PBH bindings, static routes in the kernel, VRF
  bindings of interfaces and DHCP relay entries are yes-or-no inputs of the commands that ask for them.

## Model

| member | source | states |
|---|---|---|
| `PortBreakoutPlan.RecurCreateConfig` | config/config_mgmt.py:867-925 | for every diff of two trees the recursive filling of the config ends with exactly the compiled payload, or raises exactly when the compiler does, which `RaisesIff` says path by path |
| `PortBreakoutPlan.InsertHandler` | config/config_mgmt.py:834-865 | an insert of keys raises exactly when a key is missing in the new config or present in the old one; otherwise each key gets its new value and nothing else changes |
| `PortBreakoutPlan.DeleteHandler` | config/config_mgmt.py:800-832 | a delete of keys raises exactly when a key is missing in the old config or present in the new one; otherwise a list becomes the empty list and everything else becomes null |
| `PortBreakoutPlan.EditConfig` | config/config_mgmt.py:834-880 | a list edit writes the new list once for its insert and once more for its delete, and takes "" away when the old list was [""] |
| `PortBreakoutPlan.CreateChildren` | config/config_mgmt.py:901-923 | the changed children are compiled in any order with one result, children that report no change disappear, and one raising child raises |
| `PortBreakoutPlan.NodeConfig` | config/config_mgmt.py:895-925 | the markers and children of one dict, together, are the compiled payload of that dict |
| `PortBreakoutPlan.CreateConfigToLoad` | config/config_mgmt.py:776-938 | it raises if and only if some path of the diff leads to a replacement that cannot be dropped or to a list edit whose placeholder is gone; from every state that stands for the running config, the payload takes the store to the new one if and only if the diff is supported there; and it holds nothing that does not differ |
| `PortBreakoutPlan.RaisesIff` | config/config_mgmt.py:867-925 | the compiler raises if and only if the diff has a path to a text replaced by one that differs by more than case, to a list replaced so that an index runs out, to another replacement by no dict, or to the stored empty list growing without its placeholder |
| `PortBreakoutPlan.NoTextLost` | config/config_mgmt.py:890-925 | if there is a plan, every text that differs by more than case lies below a dict that the diff replaces as a whole, which the code does not allow as an update |
| `PortBreakoutPlan.RunsOutIff` | config/config_mgmt.py:911-923 | going through [old, new] with a new list raises exactly when one of the first two items is missing on a side, or such a pair differs by more than case and the part at its position is longer than one of the pair |
| `PortBreakoutPlan.PayloadLands` | config/config_mgmt.py:776-938 | for every supported diff, loading the payload takes every state that stands for the old config to the new one, where case-differing strings keep their old value and a list that grew from the stored empty list comes without its placeholder |
| `PortBreakoutPlan.PlaceholderStays` | config/config_mgmt.py:857-864 | a list that only grows from [""] keeps the placeholder for the compiler to remove, so this removal never raises |
| `PortBreakoutPlan.UnsupportedMisses` | config/config_mgmt.py:834-925 | from every state that stands for the old config, outside the supported diffs (a value replaced by one that the store does not already stand for, a list that both gains and loses items, a string field deleted from an entry that stays) the compiler raises or its payload does not reach the new config |
| `PortBreakoutPlan.UpdateMisses` | config/config_mgmt.py:872-895 | a dropped [old, new] leaves the old value |
| `PortBreakoutPlan.EditMisses` | config/config_mgmt.py:834-880 | a list that both gains and loses items is written twice over, or raises because its placeholder is gone |
| `PortBreakoutPlan.NodeMisses` | config/config_mgmt.py:800-832 | a deleted non-list field, which is written as null, or one wrong child, is enough to miss |
| `PortBreakoutPlan.PayloadLandsIffSupported` | config/config_mgmt.py:776-938 | over all pairs of configs and all states that stand for the first, also after the shutdown: mod_config of the payload ends at the new config (without placeholders of lists that were empty, and with a list field that is deleted from a staying entry left behind as the store's empty list) if and only if the diff is supported there |
| `PortBreakoutPlan.PayloadShaped` | config/config_mgmt.py:776-938 | every payload is one that mod_config accepts: tables of entries of fields, nulls only where an entry or a field goes |
| `PortBreakoutPlan.PayloadMinimal` | config/config_mgmt.py:776-938 | a subtree that is the same in both configs never appears in the payload |
| `PortBreakoutPlan.LandedSettles` | config/config_mgmt.py:896-899 | the state reached stands for the requested config: equal but for the case of strings and the storage of empty lists |
| `PortBreakoutPlan.SupportedAnywhere` | config/config_mgmt.py:750-774 | a diff that is supported where the store holds the old config itself is supported in every state that stands for it |
| `PortBreakoutPlan.WriteNew` | config/config_mgmt.py:206-224 | mod_config of a whole new value stores that value |
| `PortBreakoutPlan.TracksSettles` | config/config_mgmt.py:896-899 | a state that tracks the step from one config to an equivalent one stands for the second |
| `PortBreakoutConfig.SearchKeysInConfig` | config/config_mgmt.py:656-701 | whatever the order of keys, the search returns the pruned tree and the found flag of its meaning |
| `PortBreakoutConfig.SearchDict` | config/config_mgmt.py:670-689 | the loop over one dict fills in exactly the keys that match or lead to a match |
| `PortBreakoutConfig.SearchList` | config/config_mgmt.py:691-695 | of a list, exactly the search keys that it holds stay, in the order of the search keys |
| `PortBreakoutConfig.MatchKey` | config/config_mgmt.py:671-681 | a key matches if it starts with a search key and a bar or ends with a search key |
| `PortBreakoutConfig.MatchesIff` | config/config_mgmt.py:671-681 | the pattern matches exactly a search key followed by a bar and anything, or a text that ends in the search key, where a newline may follow |
| `PortBreakoutConfig.ItemsFoundInOrder` | config/config_mgmt.py:691-695 | the items found keep the order of the search keys |
| `PortBreakoutConfig.FoundIffLeads` | config/config_mgmt.py:656-701 | found is true if and only if some path leads to a matching key or list item |
| `PortBreakoutConfig.SearchedAt` | config/config_mgmt.py:656-701 | on every config, place by place: below a matching key everything is kept whole, but a null whose own key is the first to match is gone; elsewhere a node is kept if and only if it leads to a match, and lists keep the search keys they hold |
| `PortBreakoutConfig.FoundIffNonempty` | config/config_mgmt.py:656-701 | on every config, found tells whether the output is empty if and only if it is not so that keys match, all of them hold null, and nothing else leads to a match; in that case found holds with an empty output |
| `PortBreakoutConfig.NullBreaksFound` | config/config_mgmt.py:656-701 | for every matching key, a null under it alone is found with an empty output; around it, one level up, a second search takes away what the first one left |
| `PortBreakoutConfig.SearchIdempotentIff` | config/config_mgmt.py:656-701 | on every config, searching the output again changes nothing if and only if no dict below, outside of what is kept whole, is one in which only nulls match |
| `PortBreakoutConfig.MergeConfigs` | config/config_mgmt.py:607-654 | the merge raises if and only if the trees clash at some path; otherwise every place of the result is that of the merge, and in the second dict exactly what was not taken from it is left |
| `PortBreakoutConfig.MergeRaisesIff` | config/config_mgmt.py:624-636 | the merge raises if and only if a path leads through dicts of both trees to a value that is not empty in the second, where one of the two is a list or a dict and the other is not |
| `PortBreakoutConfig.MergedAt` | config/config_mgmt.py:607-654 | place by place: below an empty value of the second tree that stands where the first has any, the second; where only one tree has a value, that; two lists give the first followed by the second, two dicts a dict, and otherwise the first stays |
| `PortBreakoutConfig.MergedWithoutUnique` | config/config_mgmt.py:645-647 | without unique keys, the keys of the first dict are merged alike, its empty second values ignored, and no key is taken over |
| `PortBreakoutConfig.MergeKeepsFirst` | config/config_mgmt.py:607-654 | nothing of the first tree is lost if and only if no empty value of the second one stands where the first has a value |
| `PortBreakoutConfig.EmptyValueWins` | config/config_mgmt.py:639-647 | for all dicts and keys, an empty value of the second dict, never deleted from it, ends up in the result, and the first dict keeps its own there only if that is the same |
| `PortBreakoutConfig.MergeCoversSecond` | config/config_mgmt.py:607-654 | everything that the second tree brings is in the result |
| `PortBreakout.ConfigMgmtDPB.BreakOutPort` | config/config_mgmt.py:409-461 | for every run: it starts to write if and only if both plans exist and the OIDs can be read, otherwise Config DB is unchanged; both resulting configs were validated before the first write, the writes are shutdown, delete plan, add plan in that order, and the add comes only after a poll that saw every deleted port gone; if Config DB stands for the config that was read and the deleted ports leave it, then a failed wait leaves exactly the validated middle config if and only if the delete diff is supported, and, that being so and no empty list being filled by deleting, a success ends exactly at the validated final config, with no trace of the shutdown, if and only if the add diff is supported |
| `PortBreakout.ConfigMgmtDPB.PlanOut` | config/config_mgmt.py:425-438 | planning writes nothing, and gives plans if and only if both the tree without the ports and the target built on it are valid and compile; with open dependencies and no force it stops and reports exactly these |
| `PortBreakout.ConfigMgmtDPB.CarryOut` | config/config_mgmt.py:450-455 | the writes and polls come in the fixed order, and the last write happens if and only if a poll before the last one saw the ports gone |
| `PortBreakout.ConfigMgmtDPB.DeletePorts` | config/config_mgmt.py:463-526 | a delete plan is returned if and only if no port has a dependency or force is given, all dependencies and then all ports can be deleted in order, the tree that this leaves is valid, and no path of the difference is stuck; without force, all dependencies of all ports are reported, in order, and nothing is deleted |
| `PortBreakout.ConfigMgmtDPB.PortDependencies` | config/config_mgmt.py:480-490 | the loop over the ports finds exactly the dependencies of each port, one port after the other, and fails exactly if a lookup does |
| `PortBreakout.DependenciesAre` | config/config_mgmt.py:480-490 | if all lookups succeed, the list is cut into the dependencies of the ports in order, and a node is in it if and only if some port has it; otherwise there is none |
| `PortBreakout.TreeWithoutIff` | config/config_mgmt.py:491-508 | the tree without the ports is what deleting each dependency and then each port, looked up in the tree of its turn, leaves; there is none exactly if one of these steps fails |
| `PortBreakout.ConfigMgmtDPB.DeletableIff` | config/config_mgmt.py:463-526 | a delete plan exists exactly if there are no dependencies or force is given, the deletions leave a valid tree, and no path of the difference is stuck |
| `PortBreakout.ConfigMgmtDPB.AddPorts` | config/config_mgmt.py:528-584 | an add plan is returned if and only if the target can be built, loaded, is valid, and the difference compiles; the plan is that difference |
| `PortBreakout.TargetConfig` | config/config_mgmt.py:548-567 | the target is the current data with the requested PORT entries put over it and then, if wanted, the searched default config of the ports merged in; there is none exactly if the data has no ports or the two clash |
| `PortBreakout.TargetPlaces` | config/config_mgmt.py:548-567 | the target place by place: the requested entries replace those of the same ports, all else stays, and every place of the default config is merged |
| `PortBreakout.TargetIff` | config/config_mgmt.py:548-567 | there is a target if and only if the data has ports and the default config, if wanted, does not clash with them at any path |
| `PortBreakout.ConfigMgmtDPB.ShutdownIntf` | config/config_mgmt.py:586-605 | one write sets admin_status to down on exactly the given ports and changes no other field, and none happens when there are no ports |
| `PortBreakout.ConfigMgmtDPB.VerifyAsicDB` | config/config_mgmt.py:372-407 | succeeds if and only if some poll before the last saw all ports absent: a success on the very last poll is still reported as a timeout |
| `PortBreakout.ConfigMgmtDPB.CheckNoPortsInAsicDb` | config/config_mgmt.py:346-370 | true if and only if every port was absent at the moment it was looked up |
| `PortBreakout.PollIsFinal` | config/config_mgmt.py:346-370 | if ports once gone stay gone, a poll that looked at them one after the other shows them all absent together at its end |
| `PortBreakout.ShutdownFades` | config/config_mgmt.py:586-605 | the shutdown write touches only entries that the delete plan removes, so the state after the delete plan is the same with and without it |
| `PortBreakout.TwoWritesLandIff` | config/config_mgmt.py:450-455 | shutdown and delete plan together take Config DB to the validated middle config if and only if the delete diff is supported |
| `PortBreakout.ThreeWritesLandIff` | config/config_mgmt.py:450-455 | once the first two writes have landed, the three writes together land at the validated final config if and only if the add diff is supported |
| `PortBreakout.ConfigMgmtDPB.RunLands` | config/config_mgmt.py:409-461 | the same two equivalences for the two plans that a run made, with the diffs that it used |
| `PortBreakout.DependenciesFail` | config/config_mgmt.py:483-490 | one failing dependency lookup fails the whole collection |
| `ConfigStore.SetEntryAt` | generic_config_updater/change_applier.py:41-42 | a write of one entry changes that entry and no other; None deletes it |
| `ConfigStore.SetEntryIsConfig` | generic_config_updater/change_applier.py:41-42 | Config DB has no table without keys after any entry write |
| `ConfigStore.SameEntries` | generic_config_updater/change_applier.py:45-55 | two configs without empty tables are equal once all their entries are |
| `ConfigStore.KeptIsConfig` | generic_config_updater/change_applier.py:41-42 | what the store keeps of a document is a config, and the very document if and only if that holds no empty list |
| `ConfigStore.NullMeans` | config/config_mgmt.py:206-224 | mod_config of null deletes a table or an entry, the last entry with its table, but writes a field as the text None; an empty list is written as the list of one empty string |
| `JsonPatch.PointerRoundTrip` | config/validated_config_db_connector.py:45-90 | reading back the pointer written for a list of keys gives these keys, also with "/" and "~" in them (sections 3 and 4 of RFC 6901) |
| `JsonPatch.EscapePlain` | config/validated_config_db_connector.py:48-51 | a table name without "/" and "~" is its own pointer token |
| `JsonPatch.ApplyConcat` | generic_config_updater/generic_updater.py:39-63 | applying two patches in a row is applying their concatenation |
| `JsonPatch.AddedIsThere` | generic_config_updater/generic_updater.py:39-63 | a member that is added is there with its value, and removing it takes away just that (sections 4.1 and 4.2 of RFC 6902) |
| `JsonPatch.InsertedIsThere` | generic_config_updater/generic_updater.py:39-63 | a list item that is inserted is at its position, "-" being the one after the last, and the items after it move on by one (section 4.1 of RFC 6902) |
| `JsonPatch.RemoveAddBack` | generic_config_updater/generic_updater.py:39-63 | what is removed and added again with its value gives back the document |
| `JsonPatch.StandingStill` | generic_config_updater/generic_updater.py:39-63 | replacing, moving and copying a value to where it is changes nothing, a test passes for that value only, and without a value all of them fail (sections 4.3 to 4.6 of RFC 6902) |
| `ConfigUpdater.ChangeApplier.Apply` | generic_config_updater/change_applier.py:142-161 | a change either fails and writes nothing, or writes exactly the (table, key) pairs whose entries differ, each once, records exactly these, and leaves Config DB as the store keeps the pruned result; this for every order of tables and keys; a mismatch is reported exactly if the result cannot be read back outside the backend tables |
| `ConfigUpdater.ChangeApplier.UpdTables` | generic_config_updater/change_applier.py:147-149 | the loop over the tables of both configs makes every entry that of the result as the store keeps it |
| `ConfigUpdater.ChangeApplier.UpdTable` | generic_config_updater/change_applier.py:126-134 | one table is brought to its result while the others stay |
| `ConfigUpdater.ChangeApplier.UpdData` | generic_config_updater/change_applier.py:126-134 | in one table exactly the differing keys are written and recorded, in any order |
| `ConfigUpdater.PatchApplier.Apply` | generic_config_updater/generic_updater.py:39-89 | for patches of all six operations the outcome is decided before the first write; the change loop never fails; Config DB is the simulated target as the store keeps it, and "still some parts not updated" is reported exactly if that cannot be read back; a refused patch writes nothing |
| `ConfigUpdater.PatchedIsConfig` | generic_config_updater/generic_updater.py:39-89 | every patch leaves a config, without empty tables and empty lists |
| `ConfigUpdater.StillDifferentIff` | generic_config_updater/generic_updater.py:81-87 | a carried-out patch is reported as not fully applied if and only if its result holds an empty list outside the backend tables |
| `ConfigUpdater.EmptyListReported` | generic_config_updater/generic_updater.py:81-87 | from every config, a patch to a document with an empty list outside the backend tables is carried out and still reported as not fully applied |
| `ConfigUpdater.SimpleToolsSound` | generic_config_updater/generic_updater.py:65-79 | the contracts of the sorter and of make_patch can be met: sorting a patch as one change meets them |
| `ConfigUpdater.ConfigReplacer.Replace` | generic_config_updater/generic_updater.py:98-117 | replace leaves the target as the store keeps it exactly when the patch is not refused, nothing changed otherwise, and succeeds only with exactly the target |
| `ConfigUpdater.FileSystemConfigRollbacker.Rollback` | generic_config_updater/generic_updater.py:129-143 | rollback does what its step of the run model says and fails exactly when that refuses |
| `ConfigUpdater.FileSystemConfigRollbacker.DeleteCheckpoint` | generic_config_updater/generic_updater.py:183-194 | delete removes the file of the name, and fails exactly when there is none |
| `ConfigUpdater.FileSystemConfigRollbacker.ListCheckpoints` | generic_config_updater/generic_updater.py:163-181 | the list names exactly the existing checkpoints |
| `ConfigUpdater.FileNameInjective` | generic_config_updater/generic_updater.py:209-210 | different checkpoint names have different files |
| `ConfigUpdater.RunKeepsConfigs` | generic_config_updater/generic_updater.py:98-194 | in every run of patches, replaces, rollbacks, checkpoints and deletions, Config DB and all checkpoints stay free of empty tables |
| `ConfigUpdater.CheckpointStands` | generic_config_updater/generic_updater.py:145-194 | after any further commands that neither overwrite nor delete it, a checkpoint holds the config of the moment it was made |
| `ConfigUpdater.RollbackRestores` | generic_config_updater/generic_updater.py:129-143 | rollback restores exactly the config of the latest live checkpoint or, if the permitted check, the validation or the sorter refuses, changes nothing; it is never refused for empty tables |
| `ConfigUpdater.MissingNameChangesNothing` | generic_config_updater/generic_updater.py:129-143 | in every run, rollback or deletion of a name without a live checkpoint changes nothing |
| `ConfigUpdater.NoEmptyTables` | generic_config_updater/generic_updater.py:58-63 | no config in which every table has a key is refused for empty tables |
| `ValidatedConnector.ValidatedConfigDBConnector.CreateGcuPatch` | config/validated_config_db_connector.py:45-90 | the patch is the missing parents followed by one write of the entry, or one per field, at escaped pointers; with an empty key it removes the table, and an add raises |
| `ValidatedConnector.ValidatedConfigDBConnector.ApplyPatch` | config/validated_config_db_connector.py:92-99 | a patch that would leave an empty table falls back to deleting the table |
| `ValidatedConnector.ValidatedConfigDBConnector.ValidatedDeleteTable` | config/validated_config_db_connector.py:101-109 | a refused deletion is swallowed unless it is a conflict |
| `ValidatedConnector.ValidatedConfigDBConnector.ValidatedSetEntry` | config/validated_config_db_connector.py:122-131 | a validated set_entry raises or not, and leaves Config DB, exactly as its patch with the fallback decides; a single empty field or None is a deletion, and with an empty key the deletion of the table; if it writes and does not raise, the entry holds exactly the given fields with their last values, none for the placeholder, and no other entry has changed |
| `ValidatedConnector.ValidatedConfigDBConnector.ValidatedModEntry` | config/validated_config_db_connector.py:111-120 | a validated mod_entry raises or not, and leaves Config DB, exactly as its patch with the fallback decides; None always raises; if it writes and does not raise, the entry holds the given fields with their last values and otherwise its old ones, and no other entry has changed |
| `ValidatedConnector.HeaderOpens` | config/validated_config_db_connector.py:47-63 | after the parent operations both parents exist, so nothing later in the patch names a missing parent (sections 4.1 and 4.2 of RFC 6902) |
| `ValidatedConnector.SetPatchWrites` | config/validated_config_db_connector.py:45-90 | for every config, every table name that needs no escaping, every nonempty key and all fields but a single empty one, the set_entry patch applies and gives what the plain set_entry gives |
| `ValidatedConnector.ModPatchMerges` | config/validated_config_db_connector.py:45-90 | for every config, every table name that needs no escaping, every key and all fields but a single empty one, the mod_entry patch applies and gives what the plain mod_entry gives |
| `ValidatedConnector.FieldOpsMerge` | config/validated_config_db_connector.py:78-87 | one operation per field, in order, merges the fields, the last of a name winning |
| `ValidatedConnector.RemovePatch` | config/validated_config_db_connector.py:45-90 | the removal patch conflicts exactly on a missing entry, and leaves an empty table exactly when it takes the last key |
| `ValidatedConnector.DeleteLast` | config/validated_config_db_connector.py:92-109 | deleting the table is what removing its last key means |
| `ValidatedConnector.DeleteApplies` | config/validated_config_db_connector.py:101-109 | the table deletion patch applies exactly to an existing table |
| `ValidatedConnector.ExactPatch` | generic_config_updater/generic_updater.py:81-87 | a patch whose result is a config is never reported as partly applied |
| `ValidatedConnector.ValidatedOutcome` | config/validated_config_db_connector.py:92-131 | whether a validated call raises and what it leaves, through patch, simulation, sorting and exceptions, is said by the plain operation it aims at and the answers of the permitted check and the sorter alone, for every call |
| `ValidatedConnector.RemovalOutcome` | config/validated_config_db_connector.py:92-109 | taking the last key of a table needs the table without keys permitted, and is then the deletion of the table with its swallowed refusals; taking another key is a single permitted and sorted write |
| `ValidatedConnector.FieldRemovalOutcome` | config/validated_config_db_connector.py:78-120 | mod_entry with one empty field raises exactly for an absent entry or field or a refused write, and otherwise takes exactly that field away |
| `ValidatedConnector.ValidatedMeansPlainIff` | config/validated_config_db_connector.py:92-131 | a validated call that does not raise ends in the same DB as the plain call if and only if a condition holds that can be checked before: for a removal or deletion, the deletion of the table is not refused in silence; for a set with an empty key, the table has no other; for one empty field, never in mod_entry, and in set_entry only if the last entry already is that field and its removal is refused in silence; for all other values always. A silent refusal changes nothing |
| `ValidatedConnector.SetLeaves` | config/validated_config_db_connector.py:32-43 | after a set_entry that writes, the entry has exactly the given field names with the text of the last value of each, and is empty for the placeholder alone |
| `ValidatedConnector.ModLeaves` | config/validated_config_db_connector.py:78-87 | after a mod_entry that writes, the entry has the given fields and its other old ones, and nothing else has changed |
| `ValidatedConnector.RaisesIff` | config/validated_config_db_connector.py:92-131 | a validated call raises if and only if there is nothing to act on (an absent entry, field or table, a value without a key, a None merge) or its write is not permitted or not sorted; the deletion of a table, also with its last key, raises only where the sorter fails or the table without keys is not permitted; and then nothing changes |
| `ValidatedConnector.ValidatedKeepsConfig` | config/validated_config_db_connector.py:92-131 | every validated call, raising or not, leaves a config |
| `ValidatedConnector.ValidatedRunIsPlainRun` | config/validated_config_db_connector.py:92-131 | any run of validated calls, each of which meets the condition in its state, ends in the DB of the same plain calls, and raises if and only if one of them does; table names need no escaping and the placeholder name stands only alone in a set_entry |
| `ValidatedConnector.SingleEmptyIff` | config/validated_config_db_connector.py:122-131 | set_entry with one empty field does what the plain call does if and only if its entry, the last of the table, already is that field, and its removal is refused in silence |
| `ValidatedConnector.SingleEmptyNeverMerges` | config/validated_config_db_connector.py:111-120 | mod_entry with one empty field never does what the plain call does: the field is gone and the other fields stay |
| `ValidatedConnector.RefusedInSilence` | config/validated_config_db_connector.py:92-109 | where the validation accepts no change, removing the one entry of any table does not raise and leaves it there |
| `ValidatedConnector.EmptyKeyDeletesTable` | config/validated_config_db_connector.py:65-76 | set_entry with an empty key and None builds the deletion of the table and, if carried out, leaves no table, which is what the plain call does only to a table whose one key is empty |
| `ValidatedConnector.EmptyKeyAddRaises` | config/validated_config_db_connector.py:65-76 | set_entry with an empty key and a value raises and changes nothing |
| `AclRules.ConvertRules` | acl_loader/main.py:646-671 | the nested loops over sets and entries build the compiled rules; with distinct names and ids, every set whose table exists and is not ruled out has, under that table, exactly a rule for each entry that converts, with every field that the converter gave, the priority max_priority minus the id, the default match of the kind of table where no field stands in its place, and nothing else; and, unless the table is a mirror or an egress one, the default deny with action DROP, priority 1 and the match of its IP version |
| `AclRules.SetIsCompiled` | acl_loader/main.py:600-671 | the same for each set, from the specification of the loops |
| `AclRules.KindsApart` | acl_loader/main.py:600-642 | types and stages are told apart whatever the case of their letters: mirror by the first six letters, the others as a whole |
| `AclRules.TableNameAt` | acl_loader/main.py:650-650 | the table of a set has the name of the set in capitals, with an underscore for each space and dash |
| `AclRules.OnlyCompiledTables` | acl_loader/main.py:650-660 | every compiled rule belongs to an existing table of some set, and to the restricted one if there is a restriction |
| `AclRules.RulesOfTable` | acl_loader/main.py:646-671 | with distinct normalised names and sequence ids, the rules of a table are exactly its convertible entries and the default deny |
| `AclRules.PriorityOf` | acl_loader/main.py:600-644 | the priority of a rule is max_priority minus its sequence id, and that of the deny is min_priority |
| `AclRules.RuleAboveDeny` | acl_loader/main.py:600-644 | a rule stands above the default deny if and only if its id is below max_priority - min_priority |
| `AclRules.FirstMatchIff` | acl_loader/main.py:600-671 | first match holds for a set, over all predicates on rules and all rules that may be chosen, if and only if its table has no default deny or every converting entry has an id below max_priority - min_priority |
| `AclRules.FirstMatch` | acl_loader/main.py:600-671 | if the table has no default deny or every converting entry has room above it, then for every predicate on rules each rule that may be chosen as highest-priority match is that of the smallest matching sequence id, and the deny only if no entry matches |
| `AclRules.DenyShadows` | acl_loader/main.py:600-644 | one converting entry at or above the bound, in a table with a default deny, is enough for a packet that the deny may take although the entry matches |
| `AclLoader.AclLoader.FullUpdate` | acl_loader/main.py:673-692 | every database ends with the rules of other tables, if there is a restriction, and the text of all properties of the compiled ones, and under a restriction no rule of another table is written |
| `AclLoader.AclLoader.IncrementalUpdate` | acl_loader/main.py:694-767 | every database ends with exactly the compiled rules and their texts; at every write in between, each control-plane rule in both sets is present with its old or new contents, and one with equal contents is never written; a rule of an unknown table raises before any write |
| `AclLoader.AclLoader.UpdatePhases` | acl_loader/main.py:728-767 | the five writing loops in their order bring every database to the compiled rules, and between any two writes the standing control-plane rules stand |
| `AclLoader.AclLoader.SplitKeys` | acl_loader/main.py:707-726 | rules are split into control-plane and others, and an unknown table is an error |
| `AclLoader.AclLoader.RemoveAll` | acl_loader/main.py:728-733 | each rule is deleted in the global database and in each replica, and no other key is touched at any write |
| `AclLoader.AclLoader.AddAll` | acl_loader/main.py:736-741 | each rule is added in the global database and in each replica |
| `AclLoader.AclLoader.ReplaceChanged` | acl_loader/main.py:761-767 | exactly the rules whose contents differ are written |
| `AclLoader.AclLoader.ModConfig` | acl_loader/main.py:689-692 | mod_config installs the rules over disjoint ones |
| `AclLoader.AclLoader.InstallEverywhere` | acl_loader/main.py:689-692 | every database gets the compiled rules, and no other rule is written |
| `AclLoader.UpdatesAgree` | acl_loader/main.py:673-767 | without a restriction both algorithms end with the same rules |
| `AclLoader.RestrictedUpdatesAgreeIff` | acl_loader/main.py:673-767 | under a restriction, which for the incremental update only a caller of the class can set, since its command has no table option, they agree if and only if no other table has rules, because incremental_update deletes those |
| `Columns.SplitJoin` | config/main.py:5497-5506 | splitting at commas undoes joining for items without commas |
| `Columns.JoinSplit` | config/main.py:5545-5549 | joining undoes splitting always |
| `Columns.JoinAppend` | config/main.py:5461-5465 | joining two columns with a comma is joining the appended items |
| `Columns.SameCountIff` | config/main.py:5497-5506 | the joined text splits into as many items as were joined if and only if no item has a comma in it |
| `StaticRoutes.RouteConfig.AddRoute` | config/main.py:5404-5471 | add appends one record per next hop, and is refused exactly for a target that is not known or not complete |
| `StaticRoutes.AddableIff` | config/main.py:5404-5440 | gateways are accepted exactly if each is an address or an existing port channel, a VRF if it exists, an interface if it exists or is null; a route without a next hop never |
| `StaticRoutes.HopsCarry` | config/main.py:5404-5471 | the records that are added carry the gateways in order, the VRF or the interface of the command, distance 0, and blackhole exactly for the interface null |
| `StaticRoutes.RouteConfig.Align` | config/main.py:5418-5453 | the columns that were not given are filled up to as many items as there are gateways |
| `StaticRoutes.RouteConfig.AppendColumns` | config/main.py:5461-5467 | appending column by column is appending records |
| `StaticRoutes.RouteConfig.DelRoute` | config/main.py:5476-5550 | del removes the key without a next hop, otherwise exactly the first record with that next hop, VRF and interface; it fails exactly if there is none |
| `StaticRoutes.RouteConfig.RemoveHop` | config/main.py:5490-5550 | the five columns after the deletion are those of the records without the one |
| `StaticRoutes.RouteConfig.DropAt` | config/main.py:5523-5550 | one item of each of the five columns goes, and the key if only an empty item is left |
| `StaticRoutes.RouteConfig.FindTuple` | config/main.py:5511-5525 | the search over zipped columns finds the first such record |
| `StaticRoutes.JoinedInjective` | config/main.py:5404-5466 | different record sequences have different columns |
| `StaticRoutes.ColumnsAligned` | config/main.py:5404-5550 | all five columns of a key split into as many items as it has records |
| `StaticRoutes.RunsStayAligned` | config/main.py:5404-5550 | after every run of adds and dels, each with the port channels, VRFs and interfaces of its moment, the five columns of every key split into the fields of its records, all of the same length |
| `StaticRoutes.RemovalIsExact` | config/main.py:5476-5550 | the removed record is the first with that next hop, VRF and interface, the others keep their order, distance and blackhole, other keys are untouched, and the key goes exactly with its last record |
| `StaticRoutes.RemovalFailsIff` | config/main.py:5476-5525 | a removal fails exactly if the prefix has no record that the target names |
| `StaticRoutes.AddUndone` | config/main.py:5404-5550 | a next hop that was not there and is added can be removed, which restores the table |
| `StaticRoutes.AlignedIffNoComma` | config/main.py:5497-5506 | a column of any records splits into as many items as there are records exactly if none of its fields has a comma |
| `StaticRoutes.CommaPutsOutOfStep` | config/main.py:5404-5466 | an interface name with a comma, where one exists, is accepted by the add command and puts its column out of step |
| `PriorityGroups.BufferConfig.CheckLegality` | config/main.py:4520-4586 | a map is legal exactly if its ids are in 1..maximum in order and, for a new map, disjoint from every map of the port, or, for an old one, present |
| `PriorityGroups.BufferConfig.LegalIff` | config/main.py:4520-4586 | a map within the maximum is refused as a new one only because it is there or its ids would overlap, and as an old one only because it is not there |
| `PriorityGroups.IdsOfMap` | config/main.py:4527-4541 | a map a-b names exactly the ids from a to b, and a alone only itself |
| `PriorityGroups.BufferConfig.NoOverlap` | config/main.py:4578-4586 | the scan by bounds finds an overlap exactly when two ranges share an id |
| `PriorityGroups.BufferConfig.UpdateBufferObject` | config/main.py:4589-4631 | add and set are accepted exactly for ids from 1 to the maximum in order, which for add are new and leave the ranges of the port apart and for set are there, and for no profile or one of an ingress pool that is not lossy; they write the one group and add the digits between the ends of its map to pfc_enable; from a consistent state, pfc_enable then agrees with the lossless groups if and only if the map is single-digit; a refused one changes nothing |
| `PriorityGroups.BufferConfig.WriteGroup` | config/main.py:4620-4631 | the one entry is written, only the pfc_enable of its port changes, and it agrees with the groups if and only if the map is single-digit |
| `PriorityGroups.BufferConfig.RemoveBufferObject` | config/main.py:4634-4668 | remove takes exactly the named group, or all groups, of the port that are not of the lossy profile, and keeps a consistent state consistent; a refused one changes nothing |
| `PriorityGroups.BufferConfig.RemoveLossless` | config/main.py:4645-4662 | the loop removes exactly the selected lossless groups, and the pfc_enable of the port loses their ids |
| `PriorityGroups.BufferConfig.AdjustPfcEnable` | config/main.py:4671-4708 | pfc_enable afterwards names exactly the old priorities with the range added, or without it, or none |
| `PriorityGroups.BufferConfig.Run` | config/main.py:4589-4708 | every run of add, set and remove keeps the ranges of each port disjoint and all ids between 1 and the maximum of their port; if the maps that are set are single-digit, pfc_enable names exactly the lossless ids at its end |
| `PriorityGroups.ShiftRange` | config/main.py:4687-4691 | the loop over a range adds or removes exactly its priorities |
| `PriorityGroups.ReadPfc` | config/main.py:4678-4681 | the parsed set is that of the comma-separated numerals |
| `PriorityGroups.WrittenReadBack` | config/main.py:4693-4706 | the written pfc_enable reads back as the same set |
| `PriorityGroups.EndsAgreeIff` | config/main.py:4684-4685 | first and last character are the bounds if and only if the lower bound has one digit and the upper one is below ten |
| `PriorityGroups.SetAgreesIff` | config/main.py:4589-4708 | after a lossless group is set, pfc_enable agrees with the lossless groups of every port if and only if the map is single-digit |
| `PriorityGroups.BufferConfig.AddLeadingZero` | config/main.py:4527-4708 | adding 03-04 is accepted, and afterwards pfc_enable names priority 0, which no group has |
| `PriorityGroups.BufferConfig.OverlapIff` | config/main.py:4578-4586 | two ranges are disjoint if and only if one ends before the other starts |
| `PriorityGroups.SetKeepsConsistent` | config/main.py:4589-4631 | setting a lossless group with a single-digit map, disjoint from the others, and enabling the digits between its ends keeps ranges disjoint and pfc_enable in agreement |
| `PriorityGroups.RemoveKeepsConsistent` | config/main.py:4634-4668 | removing lossless groups, with their ids disabled, keeps the state consistent |
| `VniMaps.VniConfig.Execute` | config/vxlan.py:143-280 | each command line has the outcome and the new tables of its model, and keeps the invariant |
| `VniMaps.VniConfig.DelVlanCommand` | config/vlan.py:58-96 | a VLAN goes exactly if it exists, is unused and unmapped |
| `VniMaps.VniConfig.AddMapCommand` | config/vxlan.py:143-180 | a mapping is added exactly for valid ids, an existing tunnel and VLAN, and a VLAN and VNI that no entry has |
| `VniMaps.VniConfig.DelMapCommand` | config/vxlan.py:187-221 | both deletions together remove exactly the entry of that tunnel, VLAN and VNI; refused while a VRF has the VNI |
| `VniMaps.VniConfig.AddMapRangeCommand` | config/vxlan.py:233-280 | the range add, which compares with the table before its first write, ends like the single adds in a row, refused ones skipped |
| `VniMaps.VniConfig.AddRange` | config/vxlan.py:251-280 | the loop, which looks only at the snapshot, ends at the fold of single adds |
| `VniMaps.VniConfig.AddVrfVniCommand` | config/main.py:5342-5376 | a VNI is put on a VRF exactly if it is mapped and on no VRF |
| `VniMaps.CommandKeepsInvariant` | config/vxlan.py:143-280 | every command keeps VLAN to VNI one-to-one, every mapped VLAN existing, every live VRF VNI mapped and on one VRF, and at most one tunnel |
| `VniMaps.RunKeepsInvariant` | config/vxlan.py:143-280 | the invariant holds in every state that any run of commands reaches |
| `VniMaps.KeyInjective` | config/vxlan.py:174-178 | the key of a mapping tells tunnel, VLAN and VNI |
| `VniMaps.BareNameMisses` | config/vxlan.py:215-216 | the name without "Vlan" that is deleted first is never the key of an entry |
| `VniMaps.KeyTellsVni` | config/vxlan.py:217-221 | the entry that is deleted has the VNI that was given |
| `VniMaps.SnapshotSuffices` | config/vxlan.py:254-280 | for each step of the range, the answer of the snapshot is that of the current table |
| `VniMaps.RangeStep` | config/vxlan.py:254-280 | one step of the fold is decided by the snapshot and the VLAN table alone |
| `VniMaps.FoldKeepsInvariant` | config/vxlan.py:233-280 | the range add keeps the invariant |
| `VniMaps.MapUndone` | config/vxlan.py:143-221 | a mapping just added can be deleted, and that restores the tables |
| `VniMaps.AddMapIff` | config/vxlan.py:143-180 | a mapping is refused only for its texts, because it is there already, or because one-to-one or the existence of its VLAN or tunnel would break; an accepted one is added and nothing else changes |
| `VniMaps.DelMapIff` | config/vxlan.py:187-221 | an existing mapping is kept only because its removal would leave a VRF with a VNI that is not mapped |
| `VniMaps.TunnelIff` | config/vxlan.py:20-115 | a tunnel is added or deleted unless what must always hold would break, there is nothing to do, or a given check refuses |
| `VniMaps.AddVrfVniIff` | config/main.py:5342-5376 | a VRF is refused a VNI only for its text, because it has it already, or because the VNI is not mapped or is on another VRF |
| `VniMaps.DelVlanIff` | config/vlan.py:58-96 | an unused VLAN stays only because a mapping names it |
| `VniMaps.RangeMaps` | config/vxlan.py:233-280 | for every key and mapping: the range add leaves it exactly if it was there, or if it is that of a VLAN of the range that exists and is free, with a VNI that is free |
| `VniMaps.AddMapRangeIff` | config/vxlan.py:233-251 | a range is refused exactly if an end is no VLAN id or VNI, the ends are the wrong way round, or there is no such tunnel |
| `VniMaps.VrfIff` | config/main.py:5288-5340 | a VRF is added exactly for a new name of at most 15 characters that starts with Vrf, an unused one goes, and deleting its VNI makes it 0 |
| `VniMaps.CanonicalNumbersApart` | config/vxlan.py:165-172 | while VNIs have no leading zeros, no two entries have the same number |
| `VniMaps.SafeIffCanonical` | config/vxlan.py:165-172 | a written VNI keeps numbers apart in every such state if and only if it has no leading zero, or the VLAN has one and so cannot be mapped |
| `VniMaps.LeadingZeroClashes` | config/vxlan.py:165-172 | for every VLAN, a VNI with a leading zero has a state in which two VLANs get the same number |
| `Nat.NatConfig.IsIpOverlapping` | config/nat.py:55-95 | true exactly if some entry occupies the address |
| `Nat.NatConfig.IsOverlappingWithPool` | config/nat.py:97-122 | true exactly if some pool covers the address |
| `Nat.NatConfig.CountStatic` | config/nat.py:124-147 | counts exactly the entries with the twice NAT id |
| `Nat.NatConfig.CountBindings` | config/nat.py:149-183 | counts exactly the bindings with the id whose pool exists, without the named one |
| `Nat.NatConfig.AddBasic` | config/nat.py:244-313 | fails exactly for an invalid address, one that a NAPT entry occupies or a pool covers, or an id already counted twice; skips an entry that is present or does not fit; otherwise exactly this entry is written, the snat type making the local address count |
| `Nat.NatConfig.AddNapt` | config/nat.py:326-473 | fails exactly for an invalid address, one that a static NAT entry occupies, or an id already counted twice; pools are not looked at; otherwise exactly this entry is written |
| `Nat.NatConfig.AddPoolCommand` | config/nat.py:617-714 | fails exactly for a long name, a bad range or ports, or a range with a static NAT address in it; skips a pool that is present, and every pool once there are 16; otherwise exactly this pool is written |
| `Nat.NatConfig.TouchesStaticNat` | config/nat.py:687-711 | true exactly if some static NAT address is in the new range |
| `Nat.NatConfig.AddBindingCommand` | config/nat.py:726-776 | fails exactly for a long name or an id already counted twice over both static tables and the other live bindings; skips a present one, a 17th, and dnat; otherwise exactly this binding is written |
| `Nat.NatConfig.RemovePoolCommand` | config/nat.py:784-812 | a pool goes exactly if no binding names it |
| `Nat.NatConfig.RemoveAllPools` | config/nat.py:818-841 | exactly the unbound pools go |
| `Nat.CommandKeepsInvariant` | config/nat.py:244-883 | every command keeps static NAT addresses apart from NAPT ones and outside every pool, at most 16 pools and bindings, and at most two entries per static table with one twice NAT id |
| `Nat.RunKeepsInvariant` | config/nat.py:244-883 | the invariant holds in every state that any run of commands reaches |
| `Nat.AddStaticIff` | config/nat.py:244-473 | a static entry is added exactly if its addresses are valid, it is not there with these local parts, there is room, its address stays apart from the other table and the pools, and its id was counted at most once; the command fails exactly for an invalid address, one that does not stay apart, or a new entry whose id was counted twice; and nothing else changes |
| `Nat.ValidAddressIff` | config/nat.py:7-17 | an address a.b.c.d is valid exactly if it is not 0.0.0.0, a is not 127 and a is below 224 |
| `Nat.PoolRange` | config/nat.py:617-714 | a pool is one valid address or two in ascending order, and covers exactly what lies between them |
| `Nat.RemoveStaticIff` | config/nat.py:482-588 | an entry goes exactly by its key and local parts, and no other entry; the command fails exactly for an invalid address |
| `Nat.StaticUndone` | config/nat.py:244-588 | a new static entry can be removed, which restores the tables |
| `Nat.AddPoolIff` | config/nat.py:617-714 | a pool is added exactly if its name, range and ports are valid, it is not there, there are fewer than 16, and no static NAT address is in it; which of the other cases are failures is said too |
| `Nat.RemovePoolIff` | config/nat.py:784-841 | pools go exactly if no binding names them |
| `Nat.AddBindingIff` | config/nat.py:726-776 | a binding is added exactly if its name is short enough, it is not there, there are fewer than 16, it is not for destinations, and its id is counted at most once without it; it fails exactly for a long name or such an id |
| `Nat.BindingUndone` | config/nat.py:726-867 | a new binding can be removed, which restores the bindings |
| `Nat.SharingAfterPut` | config/nat.py:298-313 | an entry added where its id was counted at most once keeps the bound of its table |
| `Nat.BoundPoolStays` | config/nat.py:784-841 | no command takes away the pool of a binding that stays |
| `Nat.TotalKeptIff` | config/nat.py:298-304 | an entry that is added or put over another keeps its id within two over all tables if and only if the other entries with the id leave room, those of the static table that is not counted among them |
| `Nat.TablesCountedApart` | config/nat.py:298-304 | two NAT and two NAPT entries can share one id |
| `Nat.PoolWakesBindings` | config/nat.py:149-183 | a new pool brings into force all bindings that waited for it, however many |
| `PortRoles.PortConfig.AddVlanMemberCommand` | config/vlan.py:147-198 | a member joins exactly if VLAN and port exist, it is no router interface, no port channel member if it is a port, not a member yet and not untagged twice |
| `PortRoles.PortConfig.DelVlanCommand` | config/vlan.py:58-96 | a VLAN goes only without interface keys, members and mapping |
| `PortRoles.PortConfig.DelPortChannelCommand` | config/main.py:2098-2122 | a port channel goes only if no VLAN has it and it has no members |
| `PortRoles.PortConfig.AddPcMemberCommand` | config/main.py:2133-2237 | a member joins exactly if it is a known Ethernet name that is no router interface, VLAN member or member of a port channel, and suits |
| `PortRoles.PortConfig.AddAddressCommand` | config/main.py:4367-4427 | an address is added, with its interface, exactly if the name is no VLAN or port channel member |
| `PortRoles.PortConfig.RemoveAddressCommand` | config/main.py:4437-4482 | the address goes, and the interface with its last address unless it is kept; refused while a static route uses the last one |
| `PortRoles.PortConfig.InterfaceAddresses` | config/main.py:359-374 | exactly the addresses of the interface |
| `PortRoles.PortConfig.IsInVlan` | utilities_common/cli.py:272-278 | true exactly if some VLAN has the member |
| `PortRoles.PortConfig.IsUntagged` | utilities_common/cli.py:585-593 | true exactly if some VLAN has it untagged |
| `PortRoles.PortConfig.IsInPortChannel` | utilities_common/cli.py:284-290 | true exactly if some port channel has the member |
| `PortRoles.CommandKeepsInvariant` | config/main.py:2133-2237 | every command keeps the roles apart, one port channel per port, one untagged VLAN per port, every membership naming what exists, and no address without its interface |
| `PortRoles.RunKeepsInvariant` | config/main.py:2098-2268 | the invariant holds in every state that any run of commands reaches |
| `PortRoles.OneRole` | config/vlan.py:147-233 | in every reachable state an Ethernet port is at most one of router interface, VLAN member and port channel member |
| `PortRoles.RouterJoinsIff` | config/main.py:2140-2160 | a name accepted into a port channel is a router interface already if and only if it is a subinterface and not a port |
| `PortRoles.AddPcMemberIff` | config/main.py:2133-2237 | an Ethernet name that suits and is known is refused by a port channel only because it is there already or the roles would no longer be apart |
| `PortRoles.AddVlanMemberIff` | config/vlan.py:147-198 | a member is refused by a VLAN only because it is there already, is a mirror destination, or what must always hold would break |
| `PortRoles.AddAddressIff` | config/main.py:4367-4427 | an address is refused only for its text, for a port channel member, or because the roles would no longer be apart |
| `PortRoles.AddressUndone` | config/main.py:4367-4482 | an address just added can be removed, which restores the tables; a subinterface keeps its own key |
| `PortRoles.OtherAddressStays` | config/main.py:4437-4482 | an interface stays while it has another address |
| `PortRoles.DelVlanIff` | config/vlan.py:58-96 | a VLAN without mapping and interface keys stays only for its members |
| `PortRoles.DelPortChannelIff` | config/main.py:2098-2122 | a port channel stays only for its members and its VLANs |
| `PortRoles.PcMemberUndone` | config/main.py:2133-2268 | a port channel member just added can be deleted, which restores the tables |
| `PortRoles.VlanMemberUndone` | config/vlan.py:147-233 | a VLAN member just added can be deleted, which restores the tables |
| `PortRoles.GroupUndone` | config/main.py:2060-2122 | a new VLAN and a new port channel with a valid name are accepted, and deleting them again leaves no trace |
| `PortRoles.PortChannelNameIff` | config/main.py:402-413 | a port channel is called PortChannel and a number up to 9999, in at most 15 characters |
| `PortRoles.SubinterfaceJoins` | config/main.py:2140-2160 | two commands reach a state in which a subinterface with an address may join a port channel |
| `VlanTables.CommandKeepsInvariant` | config/vlan.py:58-96 | with one VLAN table for mappings, members and interfaces, each check of del_vlan looking at the tables themselves, every command keeps both invariants and one set of VLANs |
| `VlanTables.RunKeepsInvariant` | config/vlan.py:26-96 | the same in every state that any run of commands reaches |
| `VlanTables.NothingDangles` | config/vlan.py:58-96 | in every reachable state each member, each mapping and, through its VNI, each live VRF names a VLAN that exists |
| `VlanTables.VlanGoesIff` | config/vlan.py:58-96 | from every reachable state a VLAN is deleted if and only if no interface key, no member and no mapping names it, and no other VLAN goes |
| `KeyCache.MatchEngine.Fetch` | dump/match_infra.py:350-373 | an empty pattern, no matching key and no key left by the filter are three errors; otherwise every key that matches and passes is returned, with its entry or its asked fields |
| `KeyCache.MatchEngine.FilterOutKeys` | dump/match_infra.py:316-332 | exactly the keys whose field has the value, as a whole or as an item of the comma list, in order |
| `KeyCache.PassesIff` | dump/match_infra.py:316-332 | the filter compares a single text as a whole, a comma list as a whole if that is asked, and otherwise with each of its items; an empty text never passes |
| `KeyCache.AnswerIs` | dump/match_infra.py:334-373 | each key that matches and passes is returned in order, alone or with its entry, and each asked field with its value or with what the source gives for a missing one |
| `KeyCache.MatchEngine.FillTemplate` | dump/match_infra.py:334-348 | each key with its entry, with the asked fields, or alone |
| `KeyCache.MatchRequestOptimizer.Fetch` | dump/match_infra.py:442-458 | the reply of a hit or a miss; the cache only grows and always equals the source on its keys |
| `KeyCache.MatchRequestOptimizer.FetchFromCache` | dump/match_infra.py:426-440 | a hit ignores the filter, returns the bare entry for a whole-entry request, and raises on a missing field |
| `KeyCache.MatchRequestOptimizer.FillCache` | dump/match_infra.py:417-424 | exactly the fetched entries are added |
| `KeyCache.MatchRequestOptimizer.MutateResponse` | dump/match_infra.py:400-415 | a whole-entry reply becomes keys and asked fields, "" for a missing one |
| `KeyCache.HitAgreesIff` | dump/match_infra.py:426-440 | a hit gives the answer of the engine if and only if the request asks for keys, its filter passes and all its fields exist |
| `KeyCache.MissAgreesIff` | dump/match_infra.py:400-458 | a miss gives the answer of the engine if and only if it asks for whole entries, there is no such entry, the filter rejects it, all asked fields exist, or the source gives "" for missing ones |
| `KeyCache.PlainAgrees` | dump/match_infra.py:442-458 | a request for one key by name, unfiltered, whose fields exist gets the answer of the engine, hit or miss |
| `KeyCache.FetchAll` | dump/match_infra.py:376-458 | in any run of requests, each plain one gets what the engine without a cache would give at that moment |
| `KeyCache.EngineOnAbsolute` | dump/match_infra.py:350-373 | on a request for one key the engine gives that key, or says that there is none or that the filter rejects it |

## Left out

- Click parsing, prompts, output, logging, root checks, shell and service restarts: no configuration state. `cli_sroute_to_config` is modelled from its parsed target on.
- Redis connections, file reading and connection errors: operations on the store always succeed. For the match engine a connection always exists.
- Two-part failures of validated commands: where a command makes two validated writes and the second one is refused, the first one stays; the commands of `PriorityGroups`, `VniMaps` and `PortRoles` are modelled with writes that succeed, and `ValidatedConnector` says exactly when they do.
- `ValidatedConnector.ValidatedMeansPlainIff`: assumes a table name without "/" and "~" (the code does not escape it), a key given as text (a tuple or list is joined first), text values, and the placeholder name "NULL" nowhere but in the placeholder of a set_entry, because connectors drop that field on reading, which is not part of this model.
- `PortBreakout.ConfigMgmtDPB.BreakOutPort`: says where a run ends if Config DB stands for the config that was read and the deleted ports leave it (`Begins`), and for the end of a success also that the delete diff is supported and fills no empty list (`DeleteFits`).
- `PortBreakout.ConfigMgmtDPB.AddPorts`: payloads are values. In the code an inserted subtree of the delete payload is the dict of the new config itself, which the add step then updates in place before that payload is written; where a delete diff inserts, new entries can go out with the second write.
- `PriorityGroups.BufferConfig.Run`: says that `pfc_enable` agrees only if all maps that are set have single-digit ids; `SetAgreesIff` is the exact condition for one command. A map text ending in a newline, which the pattern of the code also admits, is not modelled.
- `ConfigUpdater.ChangeApplier.Apply`: assumes that the pruned result of the change is tables of entries of fields; for any other document the code raises in the middle of its writes. The result of the service validators is a falsy value in every case and does not decide the configuration, so the validators are not modelled.
- `JsonPatch.Apply`: all six operations of RFC 6902 are modelled, on documents whose lists hold only strings, as config documents do.
- `AclLoader.AclLoader.FullUpdate`: assumes that all databases start with the rules that were read, as replicas in sync do.
- `StaticRoutes.RouteConfig.AddRoute`: entries written by other means that lack a column, and names with commas, are outside; route keys are text and a key is one prefix of one VRF.
- `PortRoles.PortConfig.AddAddressCommand`: the management interface eth0, which has a table of its own, and aliases of interface names are not modelled; addresses are compared as their canonical texts.
- `VniMaps.VniConfig.DelVlanCommand`: what the other tables say about the VLAN is an input of this command and of `PortRoles.PortConfig.DelVlanCommand`; `VlanTables` puts both on one table, as a machine on values and not as methods.
- `VniMaps.VniConfig.DelVrfCommand`: the removal of interface bindings that comes with the deletion of a VRF is not modelled, nor is the management VRF.
- `Nat.NatConfig.AddBasic`: addresses are numbers, so two texts of one address count as equal; port ranges of pools are checked by a given answer.
- String case is ASCII: `lower`, `upper` and `isdigit` are modelled on ASCII text.
- In a diff of a dict or a list with inserts and deletes, the inserts are handled first; the code follows the order of the diff, and the two markers write disjoint keys or the same list.
- Locking: `ConfigLock` is a stub in the code, so commands are modelled one at a time.
- `config interface vrf bind` and `unbind`: they write interface tables without a role check, so they are no steps of the port-role machine.
- `del_vxlan_map_range`, MCLAG, flow counters, CRM, AAA, SNMP, muxcable, fwutil, consutil, pcieutil, FDB filter: single-function claims or device input and output.
