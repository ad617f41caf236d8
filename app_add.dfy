/** The interactive `add` command: adding an alias or a group, with one
    round of recovery when the name is taken or the group is missing. The
    answers the user would type at the two prompts are parameters. */
module AppAdd {
  import opened Wrappers
  import opened IndexMaps
  import opened ConfigTypes
  import opened Core
  import opened ShellText
  import opened CoreAdd
  import opened CoreEdit
  import opened CoreMove

  /** What the command line asks to add: an alias (by default enabled, in no
      group) or a group. */
  datatype AddTarget =
    | AliasArgs(name: string, command: string, group: Option<string>, disabled: bool)
    | GroupArgs(groupName: string, groupDisabled: bool)

  /** The alias after an accepted overwrite: the new command, group and
      enabled flag; the stored form and the global flag are kept as they
      were. */
  function Overwritten(a: Alias, command: string, group: Option<string>, enabled: bool): (b: Alias)
    ensures b.command == command && b.group == group && b.enabled == enabled
    ensures b.detailed == a.detailed && b.global == a.global
  {
    a.(command := command, group := group, enabled := enabled)
  }

  /** `handle_create_non_existent_group`: on a yes the group is added
      enabled, through `add_group`; on a no nothing happens. */
  method HandleCreateNonExistentGroup(config: Config, name: string, create: bool) returns (r: OpResult)
    modifies config
    ensures !create ==> r == Ok(NoChanges) && unchanged(config)
    ensures create && name in old(config.groups.values) ==> r == Err(GroupAlreadyExists) && unchanged(config)
    ensures create && name !in old(config.groups.values) ==>
      && r == Ok(ConfigChanged)
      && config.groups == Insert(old(config.groups), name, true)
      && config.aliases == old(config.aliases)
  {
    if create {
      r := AddGroupToConfig(config, name, true);
    } else {
      r := Ok(NoChanges);
    }
  }

  /** The move that starts an accepted overwrite: nothing happens when the
      requested group is the alias's own (or the alias is missing, whose
      move failure is ignored). Otherwise the alias is moved; a missing
      target group is offered for creation, and a refusal fails with
      `GroupDoesNotExist` with nothing changed. */
  method MoveForOverwrite(config: Config, name: string, group: Option<string>, createGroup: string -> bool)
    returns (r: Result<(), Failure>)
    modifies config
    ensures name !in old(config.aliases.values) ==> r.Ok? && unchanged(config)
    ensures name in old(config.aliases.values) ==>
      var a := old(config.aliases.values[name]);
      var missing := group != a.group && group.Some? && group.value !in old(config.groups.values);
      if missing && !createGroup(group.value) then
        r == Err(GroupDoesNotExist) && unchanged(config)
      else
        && r.Ok?
        && config.aliases == Insert(old(config.aliases), name, a.(group := group))
        && config.groups == (if missing then Insert(old(config.groups), group.value, true) else old(config.groups))
  {
    var current := if name in config.aliases.values then config.aliases.values[name].group else None;
    if group != current {
      var moved := MoveAlias(config, name, group);
      if moved == Err(GroupDoesNotExist) {
        var created := HandleCreateNonExistentGroup(config, group.value, createGroup(group.value));
        // The group is missing here, so creating it cannot fail.
        assert created.Ok?;
        var retried := MoveAlias(config, name, Some(group.value));
        if retried.Err? {
          return Err(retried.error);
        }
      }
    }
    r := Ok(());
  }

  /** `handle_overwrite_existing_alias`: on a no nothing changes. On a yes
      the alias is first moved if the requested group differs from its own;
      a missing target group is offered for creation, and a refusal ends in
      `GroupDoesNotExist` with nothing changed. Then the command is
      replaced and the enabled flag set, and the shell gets the new
      definition. */
  method HandleOverwriteExistingAlias(config: Config, name: string, command: string, group: Option<string>,
                                      enabled: bool, overwrite: bool, createGroup: string -> bool)
    returns (r: OpResult)
    modifies config
    ensures !overwrite ==> r == Ok(NoChanges) && unchanged(config)
    ensures overwrite && name !in old(config.aliases.values) ==> r == Err(AliasDoesNotExist) && unchanged(config)
    ensures overwrite && name in old(config.aliases.values) ==>
      var a := old(config.aliases.values[name]);
      var missing := group != a.group && group.Some? && group.value !in old(config.groups.values);
      if missing && !createGroup(group.value) then
        r == Err(GroupDoesNotExist) && unchanged(config)
      else
        && r == Ok(Command(AliasLine(name, command)))
        && config.aliases == Insert(old(config.aliases), name, Overwritten(a, command, group, enabled))
        && config.aliases.keys == old(config.aliases.keys)
        && config.groups == (if missing then Insert(old(config.groups), group.value, true) else old(config.groups))
    ensures old(config.GroupsRegistered()) ==> config.GroupsRegistered()
  {
    if !overwrite {
      return Ok(NoChanges);
    }
    ghost var before := config.aliases;
    var moved := MoveForOverwrite(config, name, group, createGroup);
    if moved.Err? {
      return Err(moved.error);
    }
    r := EditForOverwrite(config, name, command, enabled);
    if name in before.values {
      ghost var a := before.values[name];
      InsertTwice(before, name, a.(group := group), Overwritten(a, command, group, enabled));
      if old(config.GroupsRegistered()) {
        RegisteredAfterInsert(before, old(config.groups), config.groups, name, Overwritten(a, command, group, enabled));
      }
    }
  }

  /** Storing an alias whose group is registered, with no group taken away,
      keeps every alias's group registered. */
  lemma RegisteredAfterInsert(aliases: IndexMap<Alias>, groups: IndexMap<bool>, groups': IndexMap<bool>,
                              name: string, b: Alias)
    requires forall g :: g in groups.values ==> g in groups'.values
    requires b.group.Some? ==> b.group.value in groups'.values
    ensures (forall n :: n in aliases.values && aliases.values[n].group.Some? ==> aliases.values[n].group.value in groups.values) ==>
      forall n :: n in Insert(aliases, name, b).values && Insert(aliases, name, b).values[n].group.Some? ==>
        Insert(aliases, name, b).values[n].group.value in groups'.values
  {
  }

  /** The rest of an accepted overwrite: the command is replaced through
      `edit_alias`, whose definition goes to the shell, and the enabled flag
      is set to the requested one. */
  method EditForOverwrite(config: Config, name: string, command: string, enabled: bool) returns (r: OpResult)
    modifies config
    ensures name !in old(config.aliases.values) ==> r == Err(AliasDoesNotExist) && unchanged(config)
    ensures name in old(config.aliases.values) ==>
      && r == Ok(Command(AliasLine(name, command)))
      && config.aliases == Insert(old(config.aliases), name, old(config.aliases.values[name]).(command := command, enabled := enabled))
    ensures config.groups == old(config.groups)
  {
    ghost var before := config.aliases;
    var edited := EditAlias(config, name, command);
    if edited.Err? {
      return edited;
    }
    if enabled != config.aliases.values[name].enabled {
      config.aliases := Insert(config.aliases, name, config.aliases.values[name].(enabled := enabled));
    }
    r := edited;
    InsertTwice(before, name, before.values[name].(command := command),
      before.values[name].(command := command, enabled := enabled));
  }

  /** The `GroupDoesNotExist` arm of `handle_add_alias` as the source has
      it: after the group is created and the alias added on the retry, the
      retry's `Command` is dropped and `ConfigChanged` is returned, so the
      shell is never told about an alias that is now enabled and visible. */
  method AddIntoNewGroupAsWritten(config: Config, name: string, command: string, group: string, enabled: bool,
                                  create: bool)
    returns (r: OpResult)
    requires name !in config.aliases.values && group !in config.groups.values
    modifies config
    ensures !create ==> r == Ok(NoChanges) && unchanged(config)
    ensures create ==>
      && r == Ok(ConfigChanged)
      && config.groups == Insert(old(config.groups), group, true)
      && config.aliases == Insert(old(config.aliases), name, AddedAlias(command, Some(group), enabled))
      && config.aliases.keys == old(config.aliases.keys) + [name]
    ensures create && enabled ==>
      Visible(config.aliases, config.groups) == Visible(old(config.aliases), old(config.groups)) + {name}
    ensures old(config.GroupsRegistered()) ==> config.GroupsRegistered()
  {
    ghost var before := config.aliases;
    ghost var groupsBefore := config.groups;
    var created := HandleCreateNonExistentGroup(config, group, create);
    if created == Ok(NoChanges) {
      return Ok(NoChanges);
    }
    var added := AddAliasToConfig(config, name, command, Some(group), enabled);
    if added.Err? {
      return added;
    }
    AddIntoNewGroupVisible(before, groupsBefore, name, AddedAlias(command, Some(group), enabled), group);
    r := Ok(ConfigChanged);
  }

  /** The same arm with the retry's outcome passed on, as the direct path
      of `handle_add_alias` and the retry of `handle_move` do: after the
      group is created the result is exactly what adding into an existing
      group gives, and the shell learns the new definition. */
  method AddIntoNewGroup(config: Config, name: string, command: string, group: string, enabled: bool,
                         create: bool)
    returns (r: OpResult)
    requires name !in config.aliases.values && group !in config.groups.values
    modifies config
    ensures !create ==> r == Ok(NoChanges) && unchanged(config)
    ensures create ==>
      && r == Ok(Command(AliasLine(name, command)))
      && config.groups == Insert(old(config.groups), group, true)
      && config.aliases == Insert(old(config.aliases), name, AddedAlias(command, Some(group), enabled))
      && config.aliases.keys == old(config.aliases.keys) + [name]
    ensures create && enabled ==>
      Visible(config.aliases, config.groups) == Visible(old(config.aliases), old(config.groups)) + {name}
    ensures old(config.GroupsRegistered()) ==> config.GroupsRegistered()
  {
    ghost var before := config.aliases;
    ghost var groupsBefore := config.groups;
    var created := HandleCreateNonExistentGroup(config, group, create);
    if created == Ok(NoChanges) {
      return Ok(NoChanges);
    }
    r := AddAliasToConfig(config, name, command, Some(group), enabled);
    AddIntoNewGroupVisible(before, groupsBefore, name, AddedAlias(command, Some(group), enabled), group);
  }

  /** An enabled alias added into a group created enabled is visible, and
      nothing else changes in the visible set. */
  lemma AddIntoNewGroupVisible(aliases: IndexMap<Alias>, groups: IndexMap<bool>, name: string, alias: Alias,
                               group: string)
    requires name !in aliases.values && group !in groups.values && alias.group == Some(group)
    ensures alias.enabled ==>
      Visible(Insert(aliases, name, alias), Insert(groups, group, true)) == Visible(aliases, groups) + {name}
  {
    var after := Insert(groups, group, true);
    forall n | n in aliases.values && aliases.values[n].group.Some?
      ensures GroupEnabled(after, aliases.values[n].group.value) == GroupEnabled(groups, aliases.values[n].group.value)
    {
    }
  }

  /** The input that shows the dropped command: adding `ll` into a missing
      group `utils` on an empty configuration, with the group creation
      accepted, makes `ll` visible, yet `ConfigChanged` carries no text for
      the shell. */
  lemma DroppedCommandExample()
    ensures var after := Insert(Empty<Alias>(), "ll", AddedAlias("ls -la", Some("utils"), true));
      && "ll" in Visible(after, Insert(Empty<bool>(), "utils", true))
      && Visible(Empty<Alias>(), Empty<bool>()) == {}
      && ShellUpdate(ConfigChanged).None?
  {
    AddIntoNewGroupVisible(Empty(), Empty(), "ll", AddedAlias("ls -la", Some("utils"), true), "utils");
  }

  /** `handle_add_alias`, as the source has it: a new name in an existing
      group (or none) is added as `add_alias` adds it. A taken name goes to
      the overwrite handler with the user's answer for that name; a missing
      group is offered for creation and the alias is added on one retry,
      which ends in `ConfigChanged` (see `AddIntoNewGroupAsWritten`). The two
      arms the source marks unreachable cannot be reached: the add fails only
      with those two errors, and creating a group that is missing always
      succeeds. */
  method HandleAddAlias(config: Config, name: string, command: string, group: Option<string>, enabled: bool,
                        overwrite: string -> bool, createGroup: string -> bool)
    returns (r: OpResult)
    modifies config
    ensures name !in old(config.aliases.values) && (group.None? || group.value in old(config.groups.values)) ==>
      && r == Ok(Command(AliasLine(name, command)))
      && config.aliases == Insert(old(config.aliases), name, AddedAlias(command, group, enabled))
      && config.groups == old(config.groups)
    ensures name !in old(config.aliases.values) && group.Some? && group.value !in old(config.groups.values) ==>
      if createGroup(group.value) then
        && r == Ok(ConfigChanged)
        && config.aliases == Insert(old(config.aliases), name, AddedAlias(command, group, enabled))
        && config.aliases.keys == old(config.aliases.keys) + [name]
        && config.groups == Insert(old(config.groups), group.value, true)
      else
        r == Ok(NoChanges) && unchanged(config)
    ensures name in old(config.aliases.values) && !overwrite(name) ==> r == Ok(NoChanges) && unchanged(config)
    ensures name in old(config.aliases.values) && overwrite(name) ==>
      var a := old(config.aliases.values[name]);
      var missing := group != a.group && group.Some? && group.value !in old(config.groups.values);
      if missing && !createGroup(group.value) then
        r == Err(GroupDoesNotExist) && unchanged(config)
      else
        && r == Ok(Command(AliasLine(name, command)))
        && config.aliases == Insert(old(config.aliases), name, Overwritten(a, command, group, enabled))
        && config.groups == (if missing then Insert(old(config.groups), group.value, true) else old(config.groups))
    ensures old(config.GroupsRegistered()) ==> config.GroupsRegistered()
  {
    var added := AddAliasToConfig(config, name, command, group, enabled);
    if added.Ok? {
      return added;
    }
    if added.error == AliasAlreadyExists {
      r := HandleOverwriteExistingAlias(config, name, command, group, enabled, overwrite(name), createGroup);
    } else {
      assert added.error == GroupDoesNotExist;
      r := AddIntoNewGroupAsWritten(config, name, command, group.value, enabled, createGroup(group.value));
    }
  }

  /** `handle_add`: an alias target goes to `handle_add_alias`, enabled
      unless asked otherwise; a group target is added directly, and a taken
      group name fails with `GroupAlreadyExists`. */
  method HandleAdd(config: Config, target: AddTarget, overwrite: string -> bool, createGroup: string -> bool)
    returns (r: OpResult)
    modifies config
    ensures target.GroupArgs? ==>
      if target.groupName in old(config.groups.values) then
        r == Err(GroupAlreadyExists) && unchanged(config)
      else
        && r == Ok(ConfigChanged)
        && config.groups == Insert(old(config.groups), target.groupName, !target.groupDisabled)
        && config.aliases == old(config.aliases)
    ensures target.AliasArgs? && target.name !in old(config.aliases.values) ==>
      var stored := Insert(old(config.aliases), target.name, AddedAlias(target.command, target.group, !target.disabled));
      if target.group.None? || target.group.value in old(config.groups.values) then
        && r == Ok(Command(AliasLine(target.name, target.command)))
        && config.aliases == stored
        && config.groups == old(config.groups)
      else if createGroup(target.group.value) then
        && r == Ok(ConfigChanged)
        && config.aliases == stored
        && config.groups == Insert(old(config.groups), target.group.value, true)
      else
        r == Ok(NoChanges) && unchanged(config)
    ensures target.AliasArgs? && target.name in old(config.aliases.values) && !overwrite(target.name) ==>
      r == Ok(NoChanges) && unchanged(config)
    ensures target.AliasArgs? && target.name in old(config.aliases.values) && overwrite(target.name) ==>
      var a := old(config.aliases.values[target.name]);
      var missing := target.group != a.group && target.group.Some? && target.group.value !in old(config.groups.values);
      if missing && !createGroup(target.group.value) then
        r == Err(GroupDoesNotExist) && unchanged(config)
      else
        && r == Ok(Command(AliasLine(target.name, target.command)))
        && config.aliases == Insert(old(config.aliases), target.name, Overwritten(a, target.command, target.group, !target.disabled))
        && config.groups == (if missing then Insert(old(config.groups), target.group.value, true) else old(config.groups))
    ensures old(config.GroupsRegistered()) ==> config.GroupsRegistered()
  {
    match target
    case AliasArgs(name, command, group, disabled) =>
      r := HandleAddAlias(config, name, command, group, !disabled, overwrite, createGroup);
    case GroupArgs(groupName, groupDisabled) =>
      r := AddGroupToConfig(config, groupName, !groupDisabled);
  }

  // The scenarios of the unit tests.

  /** Overwriting with a different enabled flag keeps the explicit form the
      alias was stored in. */
  lemma OverwriteKeepsStoredForm()
    ensures Overwritten(Alias("ls -l", None, false, true, false), "ls -la", None, true) == Alias("ls -la", None, true, true, false)
  {
  }

  /** A new alias added to a fresh configuration has the fields the test
      expects, and overwriting into another group carries the new group. */
  lemma AddScenarioExamples()
    ensures AddedAlias("ls -la", None, true) == Alias("ls -la", None, true, false, false)
    ensures AddedAlias("ls -la", Some("utils"), true) == Alias("ls -la", Some("utils"), true, false, false)
    ensures Overwritten(AddedAlias("ls -l", Some("old_group"), true), "ls -la", Some("new_group"), true) ==
      Alias("ls -la", Some("new_group"), true, false, false)
  {
  }
}
