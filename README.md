# aliasmgr in Dafny

A model of the in-memory core of `aliasmgr`, a shell alias manager. The
model covers four parts:

- the configuration: aliases and groups in two insertion-ordered maps;
- the codec between the configuration and the flat entry table that is
  written to the config file;
- the core operations: add, edit, move, remove, rename, enable, disable,
  sort and list;
- the interactive layer of `add`, `move`, `edit` and `remove`, which
  recovers once from a name that is taken or a group that is missing.

Every operation returns an `Outcome` or a `Failure`:

- `Command(text)`: save the configuration and send `text` to the shell;
- `ConfigChanged`: save only;
- `NoChanges`: do neither.

To make "the shell needs no update" something a contract can state, the
model defines the set of aliases a live shell knows, `Core.Visible`. These
are the enabled aliases that are ungrouped or whose group is not disabled.
Wherever the source promises it, a contract states how each operation
changes that set. An outcome other than `Command` leaves it unchanged.

Layout, one module per file:

- `IndexMaps` (index_map.dfy): an ordered map is a key sequence without
  duplicates plus a map with the same domain. `insert` keeps the position of
  an existing key and appends a new one; `shift_remove` keeps the order of
  the rest.
- `ConfigTypes`, `Core` (config_types.dfy, core_outcome.dfy): `Alias`, the
  `Config` class with its two map fields, `Outcome` and `Failure`.
- `ConfigSpec`, `ConfigRoundTrip` (config_spec.dfy, config_roundtrip.dfy):
  the entry-table codec and its round trip.
- `CoreAdd` … `CoreList`: one module per core source file. Each operation is
  a method that `modifies` the configuration object.
- `AppAdd`, `AppMove`, `AppEdit`, `AppRemove`: the interactive handlers. The
  user's answers to the prompts are parameters (`bool` or `string -> bool`).
- `KeyOrder`, `ShellText`, `Wrappers`: byte-wise string order and sorting,
  the text of shell statements, `Option`/`Result`.
- `StoredForm` (stored_form.dfy): the stored form `detailed` after
  `disable_alias`, as written and recomputed.

The Rust sources come from more than one revision. The model follows each
file as written:

- `Alias::new` takes `(command, group, enabled, global)`, and
  `detailed == !enabled || global`.
- Older call sites pass `(command, enabled, group, detailed)`. Those sites
  build the alias field by field: `add_alias_to_config` sets
  `detailed := !enabled`, and a decoded `Detailed` entry gets
  `detailed := true`.
- `src/app/edit.rs` and `src/core/rename.rs` call an `edit_alias` and an
  `add_alias` that take a whole `Alias`. These are modelled as
  `CoreEdit.ReplaceAlias` and `CoreAdd.AddAlias`. Their documented effect
  is to replace, or insert, the alias and send its definition line.
- `src/app/add.rs` calls `add_alias`/`add_group` with the arguments of
  `add_alias_to_config`/`add_group_to_config`, and relies on their errors
  coming back. The model uses those two functions there.
- The handlers and core methods behave as the code does, including the two
  behaviours listed under "## Findings". The corrected behaviour of each is
  a separate member (`AppAdd.AddIntoNewGroup`,
  `StoredForm.DisableAliasRecomputed`) with its property proved.
- `detailed` is derived only by `Alias::new`. Besides `disable_alias`, the
  accepted overwrite (`AppAdd.Overwritten`) and the toggles of `handle_edit`
  (`AppEdit.Edited`) change `enabled` or `global` and keep `detailed` as it
  was; the model keeps it there too.

One behaviour of the source is worth noting but is not listed as a finding.
Removing a disabled group with `reassign` makes its enabled members
ungrouped, and so visible. The result is still `ConfigChanged`, so the
shell is not told (`AppRemove.ReassignDisabledGroupShows`).

## Model

| member | source | states |
|---|---|---|
| IndexMaps.Insert | src/core/rename.rs:61-66 | after insert the lookup table is updated at the key; an existing key keeps its position, a new key is appended at the end |
| IndexMaps.ShiftRemove | src/core/remove.rs:5-13 | after shift_remove the key is gone from the table, nothing changes when it was absent, and the remaining keys keep their relative order |
| IndexMaps.InsertThenShiftRemove | src/core/remove.rs:5-13 | inserting a fresh key and then shift-removing it gives back the very same ordered map |
| IndexMaps.InsertExistingKeepsOrder | src/core/move.rs:21 | overwriting an existing key keeps the key order and changes the lookup of that key alone |
| IndexMaps.InsertTwice | src/app/add.rs:26-56 | writing a key twice is the same as writing the second value once |
| ConfigTypes.NewAlias | src/config/types.rs:19-27 | `Alias::new` stores command, group, enabled and global as given and sets `detailed` exactly when the alias is disabled or global |
| ConfigTypes.NewAliasExamples | src/config/types.rs:52-109 | the expectations of the constructor tests except the one below: an enabled local alias is not detailed; a disabled one is, and so is a disabled global one |
| ConfigTypes.GlobalAliasTestExpectsWrongFlag | src/config/types.rs:82-94 | the alias this test builds is disabled, whereas the test expects an enabled one |
| ConfigTypes.Config.constructor | src/config/types.rs:39-44 | `Config::new` has no aliases and no groups |
| Core.ShellUpdateImpliesSave | src/main.rs:93-110 | a shell update always comes with a save; `ConfigChanged` saves without a shell update; `NoChanges` does neither |
| Core.GroupEnabled | src/core/list.rs:96 | `groups.get(g).unwrap_or(true)`: a group is on when it is unregistered or its flag is set |
| CoreAdd.AddedAlias | src/core/add.rs:170-178 | the stored alias has the given command, group and enabled flag, `detailed == !enabled`, and is not global |
| CoreAdd.AddAliasToConfig | src/core/add.rs:152-182 | a taken name fails first with `AliasAlreadyExists`, then a missing group with `GroupDoesNotExist`, with nothing changed; otherwise the alias is appended, the groups are kept, the result is `Command` with its `alias` line, and every alias still names a registered group |
| CoreAdd.AddGroupToConfig | src/core/add.rs:193-207 | a taken group name fails with `GroupAlreadyExists` and nothing changes; otherwise the group is appended with the flag, aliases are kept, the result is `ConfigChanged`, and the visible set is unchanged |
| CoreAdd.AddAlias | src/core/rename.rs:35 | the whole-alias add: the same error order as `add_alias_to_config`; on success the alias is inserted as given and its definition line is sent |
| CoreAdd.AddedAliasExamples | src/core/add.rs:214-257 | the aliases the add tests expect, for an enabled and a disabled alias, and the definition line of the first |
| CoreEdit.EditAlias | src/core/edit.rs:22-35 | `AliasDoesNotExist` exactly when the name is missing, with nothing changed; otherwise only the command of that alias changes and its `alias` line is returned |
| CoreEdit.ReplaceAlias | src/app/edit.rs:48 | the whole-alias edit: `AliasDoesNotExist` exactly when the name is missing; otherwise the alias is replaced in place and its definition line is returned |
| CoreMove.MoveAlias | src/core/move.rs:4-23 | a missing alias fails first, then an unregistered target group, with nothing changed; otherwise only that alias's group field changes, the result is `ConfigChanged`, and the visible set is kept whenever the two groups are equally on |
| CoreMove.MoveIntoDisabledGroupHides | src/core/move.rs:21-22 | moving a visible alias into a disabled group hides it, although the move's outcome is `ConfigChanged` |
| CoreRemove.RemoveAlias | src/core/remove.rs:5-13 | `AliasDoesNotExist` exactly when the name is missing; otherwise the alias is shift-removed and its `unalias` line returned; groups are kept |
| CoreRemove.RemoveAllAliases | src/core/remove.rs:15-18 | no aliases remain, groups are kept, and the result is `unalias -a` |
| CoreRemove.RemoveAllGroups | src/core/remove.rs:20-23 | no groups remain, aliases are kept, and the result is `ConfigChanged` |
| CoreRemove.RemoveAll | src/core/remove.rs:25-28 | both maps end up empty, nothing is visible, and the result is `unalias -a` |
| CoreRemove.UnaliasText | src/core/remove.rs:36-39 | trimming the newline-terminated lines gives them joined by newlines |
| CoreRemove.RemoveNamesValues | src/core/remove.rs:30-40 | removing a list of names one by one leaves the table minus exactly those names |
| CoreRemove.AllPresentIff | src/core/remove.rs:32-33 | every removal in the loop finds its name exactly when the names are distinct and all present |
| CoreRemove.RemoveAliases | src/core/remove.rs:30-40 | succeeds exactly when every name is still present at its turn, giving the table minus those names and their `unalias` lines joined; otherwise fails with `AliasDoesNotExist` at the first missing name, the earlier removals done; groups are kept |
| CoreRemove.RemoveGroup | src/core/remove.rs:42-50 | `GroupDoesNotExist` exactly when the group is missing; otherwise only the group entry is shift-removed, the aliases are kept, and removing an enabled group hides nothing |
| CoreRemove.AddThenRemoveRestores | src/core/remove.rs:5-13 | adding an alias under a fresh name and then removing it restores the configuration exactly, order included |
| CoreRename.RenameAlias | src/core/rename.rs:8-44 | a missing old name fails, then a taken new name, with nothing changed; otherwise the alias moves to the new name at the end with all fields kept, and the result is its `unalias` line, a newline and the new definition |
| CoreRename.Retarget | src/core/rename.rs:68-72 | an alias of the old group now names the new one; every other field and every other alias is kept |
| CoreRename.Regroup | src/core/rename.rs:68-72 | the keys stay in order and every alias is retargeted |
| CoreRename.RenameGroup | src/core/rename.rs:46-75 | a missing old group fails first, then a taken new one, with nothing changed; otherwise the flag moves to the new name at the end, every member is repointed, the result is `ConfigChanged`, and the visible set is unchanged |
| CoreRename.RepointMembers | src/core/rename.rs:68-72 | the loop over the aliases leaves exactly the retargeted aliases and keeps the groups |
| CoreRename.RenameGroupKeepsVisible | src/core/rename.rs:61-74 | after renaming, every alias still names a registered group and the visible set is exactly as before |
| CoreEnable.EnableAliasVisible | src/core/enable.rs:17-28 | enabling an alias adds it to the visible set exactly when its group is on |
| CoreEnable.EnableGroupVisible | src/core/enable.rs:41-44 | enabling a group adds exactly its enabled members to the visible set |
| CoreEnable.EnableAlias | src/core/enable.rs:11-29 | `AliasDoesNotExist` exactly when the name is missing, and no other failure; otherwise the alias is enabled; in a disabled group the result is `ConfigChanged` and the visible set is kept, else the alias's definition line and it becomes visible |
| CoreEnable.EnableGroup | src/core/enable.rs:31-58 | `GroupDoesNotExist` exactly when the group is missing, and no other failure; otherwise the flag is set; `ConfigChanged` when no member is enabled, else one definition line per enabled member in member order; those members become visible |
| CoreEnable.DefinitionText | src/core/enable.rs:50-55 | the command loop yields the definition lines, each followed by a newline |
| CoreDisable.DisableAliasVisible | src/core/disable.rs:22 | disabling an alias takes exactly that alias out of the visible set |
| CoreDisable.DisableGroupVisible | src/core/disable.rs:50 | disabling a group takes exactly its members out of the visible set |
| CoreDisable.DisableAlias | src/core/disable.rs:10-33 | `AliasDoesNotExist` exactly for a missing alias, and no other failure, and `NoChanges` for a disabled one, with nothing changed; otherwise the alias is disabled; in a disabled group the result is `ConfigChanged` and the visible set is kept, else its `unalias` line and it stops being visible |
| CoreDisable.DisableGroup | src/core/disable.rs:35-67 | `GroupDoesNotExist` exactly for a missing group, and no other failure, and `NoChanges` for a disabled one, with nothing changed; otherwise the flag is cleared; `ConfigChanged` when no member is enabled, else the `unalias` blocks of the enabled members; the members stop being visible |
| CoreDisable.GroupUnaliasText | src/core/disable.rs:60-64 | the command loop yields the concatenated `unalias` blocks |
| CoreSort.SortAliasesInGroup | src/core/sort.rs:6-23 | an unregistered named group fails with `GroupDoesNotExist`, the only failure, with nothing changed; otherwise the keys are permuted, every alias outside the scope keeps its position, neighbouring in-scope aliases are ascending, the visible set is unchanged, and the result is `ConfigChanged` |
| CoreSort.SortGroups | src/core/sort.rs:25-28 | the group keys become an ascending permutation with the same flags; aliases are kept; the result is `ConfigChanged` |
| CoreSort.SortAllAliases | src/core/sort.rs:30-33 | the alias keys become an ascending permutation with the same aliases; groups are kept; the result is `ConfigChanged` |
| CoreSort.SortInGroupExample | src/core/sort.rs:87-117 | sorting within `group` gives `alias1, alias3, alias4, alias2` |
| CoreSort.SortInGroupMembers | src/core/sort.rs:87-117 | after that sort the group lists `alias1, alias3` and the ungrouped aliases `alias4, alias2` |
| CoreSort.SortUngroupedExample | src/core/sort.rs:120-150 | sorting the ungrouped aliases gives `alias3, alias1, alias2, alias4` |
| CoreSort.SortUngroupedMembers | src/core/sort.rs:120-150 | after that sort the group lists `alias3, alias1` and the ungrouped aliases `alias2, alias4` |
| CoreSort.SortGroupsExample | src/core/sort.rs:76-84 | sorting `beta, alpha` gives `alpha, beta` |
| KeyOrder.StrLessTransitive | src/core/sort.rs:17 | the byte-wise order of names is transitive |
| KeyOrder.StrLessTotal | src/core/sort.rs:17 | two different names are always ordered one way or the other |
| KeyOrder.SortInScopeCorrect | src/core/sort.rs:14-21 | the scoped insertion sort is a permutation that keeps every out-of-scope name in place and leaves in-scope neighbours ascending |
| KeyOrder.SortAscending | src/core/sort.rs:26 | `sort_keys` gives an ascending permutation |
| KeyOrder.AscendingUnique | src/core/sort.rs:26 | two ascending permutations of the same names are equal, so the sorted order is determined |
| CoreList.BucketOf | src/core/list.rs:40-44 | the bucket of an alias is the one whose group field is that alias's group |
| CoreList.BucketOfGroupField | src/core/list.rs:40-44 | each bucket is the bucket of its own group field, so buckets and group fields correspond one to one |
| CoreList.Members | src/core/list.rs:67-80 | exactly the aliases with the given group field, once each, in alias order |
| CoreList.WithEnabled | src/core/list.rs:126 | `retain` on a bucket keeps exactly the names with the given enabled flag, as a subsequence of the bucket in its order |
| CoreList.GetSingleGroup | src/core/list.rs:61-81 | an unregistered named group fails with `GroupDoesNotExist`; otherwise exactly the aliases of that group (or the ungrouped ones), once each, in alias order |
| CoreList.GetAllGroups | src/core/list.rs:29-52 | one bucket per registered group plus `Ungrouped`, each holding its members in alias order, and every alias in the bucket of its own group and no other |
| CoreList.BucketsPlaceEachAlias | src/core/list.rs:38-49 | buckets that hold each group's members place every alias in exactly its own group's bucket |
| CoreList.GetDisabledAliasesGrouped | src/core/list.rs:91-105 | disabled named groups whole, no enabled named group, and the disabled ungrouped aliases |
| CoreList.GetEnabledAliasesGrouped | src/core/list.rs:115-131 | no disabled named group, and only the enabled aliases in every remaining bucket |
| CoreList.EnabledListingIsVisible | src/core/list.rs:115-131 | the names in the enabled listing are exactly the visible set |
| ShellText.TrimTerminated | src/core/remove.rs:39 | trimming newline-terminated solid lines gives the lines joined by newlines |
| ConfigSpec.AliasToSpec | src/config/spec.rs:65-74 | an alias that is not detailed becomes the short form with its command; a detailed one becomes the explicit form with command and enabled flag |
| ConfigSpec.EntriesFor | src/config/spec.rs:115-122 | the entries of the listed aliases, each in its own form, in list order |
| ConfigSpec.GroupToSpec | src/config/spec.rs:85-102 | a group table with the group's flag whose entries are exactly the group's members, in alias order, each in its own form |
| ConfigSpec.TopNames | src/config/spec.rs:115-122 | the aliases written at top level are exactly those ungrouped or in an unregistered group, once each, in alias order |
| ConfigSpec.EncodeShape | src/config/spec.rs:111-133 | the table holds a group table for every group and the entry of every top-level alias whose name no group takes; without such a clash it is the top-level aliases in order followed by the groups in order |
| ConfigSpec.OrphanIsTopLevel | src/config/spec.rs:116-121 | an alias whose group is not registered is written at top level in its own form |
| ConfigSpec.NameClashLosesAlias | src/config/spec.rs:121-129 | an ungrouped alias with a group's name is overwritten by that group's table |
| ConfigSpec.ConvertGroupToSpec | src/config/spec.rs:85-102 | the member loop builds exactly the group table of `GroupToSpec` |
| ConfigSpec.ConvertConfigToSpec | src/config/spec.rs:111-133 | the two loops build exactly the encoded table |
| ConfigSpec.SpecToAlias | src/config/spec.rs:143-151 | a group entry is an error; the short form reads back enabled and not detailed, the explicit form with its flag and detailed; the group is the one given and the alias is never global |
| ConfigSpec.AliasRoundTrip | src/config/spec.rs:65-151 | an alias reads back unchanged exactly when it is not global and is detailed or enabled |
| ConfigSpec.DecodeMembers | src/config/spec.rs:169-172 | the member loop fails exactly when a member is itself a group table; otherwise every member is read back into the given group and the other aliases are kept |
| ConfigSpec.DecodeEntry | src/config/spec.rs:165-177 | an alias entry is read back ungrouped; a group table registers the group with its flag and reads back its members; it fails exactly on a nested group |
| ConfigSpec.Decode | src/config/spec.rs:160-182 | reading back fails exactly when some group table holds a group table |
| ConfigSpec.DecodeGroupTable | src/config/spec.rs:169-172 | the member loop computes `DecodeMembers` |
| ConfigSpec.ConvertSpecToConfig | src/config/spec.rs:160-182 | the entry loop fails exactly when reading back fails, and otherwise yields a new configuration whose aliases and groups are those read back |
| ConfigRoundTrip.RoundTrip | src/config/spec.rs:111-182 | when every group is registered, no alias is global, short-form aliases are enabled and no ungrouped alias takes a group's name, reading back the written table gives the same aliases and exactly the same groups in the same order |
| ConfigRoundTrip.DisabledShortFormComesBackEnabled | src/config/spec.rs:143-151 | a disabled alias stored in short form comes back enabled |
| ConfigRoundTrip.SaveThenLoad | src/config/mod.rs:82-93 | saving and loading a configuration that meets those conditions gives its aliases and groups back |
| AppAdd.Overwritten | src/app/add.rs:41-56 | an accepted overwrite sets command, group and enabled and keeps the stored form and the global flag |
| AppAdd.HandleCreateNonExistentGroup | src/app/add.rs:65-79 | on a no, `NoChanges` and nothing changes; on a yes the group is added enabled, or `GroupAlreadyExists` if taken |
| AppAdd.MoveForOverwrite | src/app/add.rs:26-39 | when the requested group differs, the alias is moved; a missing group is offered for creation and created enabled on a yes, while a no fails with `GroupDoesNotExist` with nothing changed |
| AppAdd.EditForOverwrite | src/app/add.rs:41-56 | the command and the enabled flag are replaced and the `alias` line returned; a missing alias fails with nothing changed |
| AppAdd.HandleOverwriteExistingAlias | src/app/add.rs:15-62 | a declined overwrite gives `NoChanges` with nothing changed; an accepted one to a missing group the user will not create fails with nothing changed; otherwise the alias is overwritten in place, the group created if needed, and its `alias` line returned |
| AppAdd.RegisteredAfterInsert | src/app/add.rs:26-56 | overwriting an alias with a registered group keeps every alias naming a registered group |
| AppAdd.AddIntoNewGroupAsWritten | src/app/add.rs:111-124 | with creation accepted the group is created, the alias added, and the result is `ConfigChanged` even though an enabled new alias became visible |
| AppAdd.DroppedCommandExample | src/app/add.rs:379-404 | on an empty configuration, `ll` in a new group `utils` becomes visible while `ConfigChanged` carries no text |
| AppAdd.AddIntoNewGroup | src/app/add.rs:111-124 | with creation accepted the group is created enabled, the alias appended, and the retry's `Command` returned; a decline gives `NoChanges` with nothing changed |
| AppAdd.AddIntoNewGroupVisible | src/app/add.rs:111-124 | an enabled alias added into a newly created enabled group is added to the visible set and nothing else is |
| AppAdd.HandleAddAlias | src/app/add.rs:82-141 | a new name goes into an existing group as `add_alias` adds it, with its `alias` line; a missing group the user accepts is created enabled and the alias appended, with `ConfigChanged` as the code returns; a decline gives `NoChanges` with nothing changed; a taken name is declined or overwritten in place as the overwrite handler decides; the unreachable arms are proved unreachable |
| AppAdd.HandleAdd | src/app/add.rs:144-160 | a group target is added enabled unless disabled, failing on a taken name; an alias target, enabled unless disabled, gets every outcome of `handle_add_alias` with its state: the direct add, the add into a created group (`ConfigChanged`, the group added), a declined group, a declined overwrite, and the accepted overwrite with the group created if needed |
| AppAdd.OverwriteKeepsStoredForm | src/app/add.rs:335-358 | overwriting a disabled explicit-form alias as enabled keeps the explicit form |
| AppAdd.AddScenarioExamples | src/app/add.rs:168-300 | the aliases the add tests expect after the direct add, the add into a group and the overwrite into another group |
| AppMove.HandleMove | src/app/move.rs:13-36 | a missing alias fails before any group is created; a successful move is returned as is; a missing group with a yes is created enabled and the move retried; a no gives `NoChanges` with nothing changed |
| AppEdit.Edited | src/app/edit.rs:23-43 | the new command, `enabled` and `global` flipped when asked, the new group when given, and everything else copied |
| AppEdit.EditedTwiceRestores | src/app/edit.rs:27-33 | editing back with the old command and the same toggles restores the alias |
| AppEdit.HandleNonexistentGroup | src/app/edit.rs:7-18 | on a yes the group is inserted enabled; on a no `GroupDoesNotExist` with nothing changed |
| AppEdit.HandleEdit | src/app/edit.rs:20-49 | a missing alias fails with nothing changed and no group is created; a missing group the user will not create fails with nothing changed; otherwise the group is created if needed, and the edited alias replaces the old one in place and is sent to the shell |
| AppEdit.EditExamples | src/app/edit.rs:66-147 | the edits of the unit tests: new command, toggled enabled, toggled global, new group |
| AppRemove.Detached | src/app/remove.rs:38-42 | moving each listed alias out of its group keeps the key order and the set of aliases |
| AppRemove.DetachedValues | src/app/remove.rs:38-42 | exactly the listed aliases lose their group, and all other fields and aliases are kept |
| AppRemove.ReassignMembers | src/app/remove.rs:38-42 | the reassign loop succeeds exactly when every listed alias exists, leaving them ungrouped; otherwise it stops at the first missing one with `AliasDoesNotExist` |
| AppRemove.HandleRemoveAll | src/app/remove.rs:14-23 | with confirmation both maps are emptied and `unalias -a` is returned; without it, `NoChanges` and nothing changes |
| AppRemove.HandleRemove | src/app/remove.rs:25-54 | an alias target is `remove_alias`; a missing named group fails with nothing changed; otherwise the group goes, then its members are ungrouped (`ConfigChanged`) or removed (their `unalias` lines), and no alias names it any more; no group name removes exactly the ungrouped aliases; `All` asks for confirmation |
| AppRemove.LeftWithoutGroup | src/app/remove.rs:37-44 | after its members are detached or removed, no alias names the removed group |
| AppRemove.StillRegistered | src/app/remove.rs:37-44 | when every alias named a registered group before, every remaining alias does afterwards |
| AppRemove.ReassignDisabledGroupShows | src/app/remove.rs:38-42 | reassigning the members of a disabled group makes its enabled members visible |
| AppRemove.RemoveGroupExample | src/app/remove.rs:109-127 | in the test configuration the group `files` has the single member `ls` |
| AppRemove.RemoveGroupExampleText | src/app/remove.rs:122-125 | its removal sends `unalias 'ls'` |
| StoredForm.DisableAsWrittenLosesFlag | src/core/disable.rs:16-22 | disabling an enabled short-form alias leaves it in short form: its stored form no longer follows its flags, the configuration no longer meets the round-trip conditions, and the alias is written as the short form and read back enabled |
| StoredForm.DisableAfterAddExample | src/core/add.rs:170-178 | `ll` added enabled is stored short; once disabled it is still written as `Simple("ls -la")`, which loads as the enabled alias that was added |
| StoredForm.ExplicitFormKeeps | src/config/types.rs:19-27 | a disabled alias stored in the explicit form restores the derived stored form and keeps the round-trip conditions |
| StoredForm.DisableAliasRecomputed | src/core/disable.rs:10-33 | `disable_alias` with `detailed` recomputed: the outcome and the visible set are those of `disable_alias`, the alias is stored disabled and explicit, and derived stored forms and the round-trip conditions are preserved |
| AppRemove.RemoveUngroupedExample | src/app/remove.rs:145-161 | the ungrouped aliases of the test configuration are `rm` alone |

## Left out

- TOML text, file paths and the file system (`src/config/io.rs`, `src/app/config_path.rs`): the codec is modelled at the level of the entry table. `serde`'s handling of a key that occurs twice is not modelled either.
- `src/config.rs` is not part of this model. It is an older, unused copy of the spec types.
- `src/core/sync.rs` and `src/app/list.rs` are not part of this model. Their bodies are `todo!()`.
- Prompts, argument parsing, logging, `main` and the shell channel (`src/cli`, `src/app/shell.rs`, `src/main.rs`, `src/app/init.rs`): each prompt's answer is a parameter. The `ShellType` argument is kept on `EnableGroup`, `DisableGroup` and `HandleRemove` and does not affect their results. `GetSingleGroup` drops it, because it only passes it on.
- The stdin-prompting wrappers in `src/core/add.rs` (lines 25-139) are not modelled. `src/app/add.rs` supersedes them.
- `src/app/sort.rs`, `src/app/rename.rs`, `src/app/enable.rs` and `src/app/disable.rs` are one-line dispatches onto modelled core functions.
- CoreAdd.AddAliasStr: this helper's source is not part of this model. Its text follows the documented statement forms.
- CoreEdit.ReplaceAlias: the whole-alias `edit_alias` is not part of this model. It is modelled by its documented effect.
- CoreAdd.AddAlias: the whole-alias `add_alias` is not part of this model. It is modelled by its documented effect.
- The member query that `enable_group`/`disable_group` call is modelled as `get_single_group`, because its own source is not part of this model.
- CoreSort.SortAliasesInGroup: the source calls the standard library's `sort_by` with a comparator that is not a total order. The model sorts by insertion from the back, which gives the order the source's unit tests expect on their layouts. It states permutation, fixed out-of-scope positions and ascending in-scope neighbours, but not the standard library's exact result on every input.
- CoreList.GetAllGroups: the panic on an alias of an unregistered group is a precondition. `GetDisabledAliasesGrouped` and `GetEnabledAliasesGrouped` inherit it.
- CoreEnable.EnableAlias: the index `config.groups[group]` panics on an unregistered group. The model makes the group's registration a precondition.
- CoreDisable.DisableAlias: the same precondition, for the same index.
- ConfigSpec.ConvertSpecToConfig: the panic on a nested group is modelled as an `Err` result.
- CoreRename.RenameAlias: the `UnexpectedBehavior` arms are unreachable. The model shows the removal always yields `Command`, so no such failure arises. The failure is still part of `Failure`.
- ConfigRoundTrip.RoundTrip: the alias table comes back with the same entries, but not necessarily in the same key order. Members of groups are read back after the top-level aliases.
- Concurrency and file locking: there are none in the core.

## Findings

| source | as written | input that shows it | evidently intended | confidence | as-written member | corrected member |
|---|---|---|---|---|---|---|
| src/app/add.rs:120-123 | after a missing group is created, the retried `add_alias` succeeds but its `Command` is discarded and `ConfigChanged` is returned | empty configuration; add `ll='ls -la'` into group `utils`, enabled; group creation accepted | return the retry's outcome, as the direct path (line 93) and `handle_move`'s retry (src/app/move.rs:24) do, so the shell defines the new, visible alias | medium, not executed | AppAdd.AddIntoNewGroupAsWritten | AppAdd.AddIntoNewGroup |
| src/core/disable.rs:22 | `alias.enabled = false` leaves `detailed` as it was, so an alias stored in the short form stays short after it is disabled; `Alias::new` (src/config/types.rs:24) derives `detailed = !enabled \|\| global` | empty configuration; add `ll='ls -la'` enabled (stored short); disable `ll`; save and load: `ll` comes back enabled | recompute `detailed` when `enabled` changes, so a disabled alias is written in the explicit form and stays disabled after a save and load | high, not executed | StoredForm.DisableAsWrittenLosesFlag | StoredForm.DisableAliasRecomputed |
