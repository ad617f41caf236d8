/** Adding an alias or a group, without the terminal prompts. */
module CoreAdd {
  import opened Wrappers
  import opened IndexMaps
  import opened ConfigTypes
  import opened Core
  import opened ShellText

  /** `add_alias_str`: the statement that defines `name` in the shell, with
      `-g` for a global alias. Its definition is not part of this model; the
      text follows the statement forms the shell transport documents. */
  function AddAliasStr(name: string, alias: Alias): string {
    "alias " + (if alias.global then "-g " else "") + "-- '" + name + "'='" + alias.command + "'"
  }

  /** The alias `add_alias_to_config` stores: the explicit form exactly when
      disabled, never global. */
  function AddedAlias(command: string, group: Option<string>, enabled: bool): (a: Alias)
    ensures a.command == command && a.group == group && a.enabled == enabled
    ensures a.detailed == !enabled && !a.global
  {
    Alias(command, group, enabled, !enabled, false)
  }

  /** `add_alias_to_config`: a taken name fails first, then an unregistered
      group; otherwise the alias is appended and its definition goes to the
      shell. */
  method AddAliasToConfig(config: Config, name: string, command: string, group: Option<string>, enabled: bool)
    returns (r: OpResult)
    modifies config
    ensures name in old(config.aliases.values) ==> r == Err(AliasAlreadyExists)
    ensures name !in old(config.aliases.values) && group.Some? && group.value !in old(config.groups.values) ==>
      r == Err(GroupDoesNotExist)
    ensures r.Err? ==> unchanged(config)
    ensures r.Ok? <==> name !in old(config.aliases.values) && (group.None? || group.value in old(config.groups.values))
    ensures r.Ok? ==>
      && config.aliases == Insert(old(config.aliases), name, AddedAlias(command, group, enabled))
      && config.aliases.keys == old(config.aliases.keys) + [name]
      && config.groups == old(config.groups)
      && r.value == Command(AliasLine(name, command))
    ensures old(config.GroupsRegistered()) ==> config.GroupsRegistered()
  {
    if name in config.aliases.values {
      return Err(AliasAlreadyExists);
    }
    if group.Some? && group.value !in config.groups.values {
      return Err(GroupDoesNotExist);
    }
    config.aliases := Insert(config.aliases, name, AddedAlias(command, group, enabled));
    r := Ok(Command(AliasLine(name, command)));
  }

  /** `add_group_to_config`: a taken group name fails; otherwise the group is
      appended with the given flag. No alias names the new group yet when
      every group is registered, so the shell needs nothing. */
  method AddGroupToConfig(config: Config, group: string, enabled: bool) returns (r: OpResult)
    modifies config
    ensures group in old(config.groups.values) <==> r == Err(GroupAlreadyExists)
    ensures r.Ok? <==> group !in old(config.groups.values)
    ensures r.Err? ==> unchanged(config)
    ensures r.Ok? ==>
      && config.groups == Insert(old(config.groups), group, enabled)
      && config.groups.keys == old(config.groups.keys) + [group]
      && config.aliases == old(config.aliases)
      && r.value == ConfigChanged
    ensures old(config.GroupsRegistered()) ==> config.GroupsRegistered() && Visible(config.aliases, config.groups) == Visible(old(config.aliases), old(config.groups))
  {
    if group in config.groups.values {
      return Err(GroupAlreadyExists);
    }
    config.groups := Insert(config.groups, group, enabled);
    r := Ok(ConfigChanged);
  }

  /** `add_alias(config, name, &alias)`, the form `rename_alias` calls. Its
      definition is not part of this model; this follows its documented
      contract: the same two checks as `add_alias_to_config`, then the alias
      is stored as given and its definition goes to the shell. */
  method AddAlias(config: Config, name: string, alias: Alias) returns (r: OpResult)
    modifies config
    ensures name in old(config.aliases.values) ==> r == Err(AliasAlreadyExists)
    ensures name !in old(config.aliases.values) && alias.group.Some? && alias.group.value !in old(config.groups.values) ==>
      r == Err(GroupDoesNotExist)
    ensures r.Err? ==> unchanged(config)
    ensures r.Ok? <==> name !in old(config.aliases.values) && (alias.group.None? || alias.group.value in old(config.groups.values))
    ensures r.Ok? ==>
      && config.aliases == Insert(old(config.aliases), name, alias)
      && config.groups == old(config.groups)
      && r.value == Command(AddAliasStr(name, alias))
    ensures old(config.GroupsRegistered()) ==> config.GroupsRegistered()
  {
    if name in config.aliases.values {
      return Err(AliasAlreadyExists);
    }
    if alias.group.Some? && alias.group.value !in config.groups.values {
      return Err(GroupDoesNotExist);
    }
    config.aliases := Insert(config.aliases, name, alias);
    r := Ok(Command(AddAliasStr(name, alias)));
  }

  /** The unit tests' expectations on a fresh configuration. */
  lemma AddedAliasExamples()
    ensures AddedAlias("ls -la", None, true) == NewAlias("ls -la", None, true, false)
    ensures AddedAlias("ls -la", None, false) == NewAlias("ls -la", None, false, false)
    ensures AddAliasStr("ll", NewAlias("ls -la", None, true, false)) == "alias -- 'll'='ls -la'"
  {
  }
}
