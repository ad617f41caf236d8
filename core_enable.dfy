/** Enabling an alias or a group. */
module CoreEnable {
  import opened Wrappers
  import opened IndexMaps
  import opened ConfigTypes
  import opened Core
  import opened ShellText
  import opened CoreAdd
  import opened CoreList

  /** The definition statement of every name, in order. */
  function DefineLines(names: seq<string>, aliases: IndexMap<Alias>): seq<string>
    requires forall n :: n in names ==> n in aliases.values
  {
    seq(|names|, i requires 0 <= i < |names| => AddAliasStr(names[i], aliases.values[names[i]]))
  }

  /** Enabling an alias makes it visible exactly when its group is on. */
  lemma EnableAliasVisible(aliases: IndexMap<Alias>, groups: IndexMap<bool>, name: string)
    requires name in aliases.values
    ensures var after := Insert(aliases, name, aliases.values[name].(enabled := true));
      Visible(after, groups) ==
        Visible(aliases, groups) + (if GroupOn(groups, aliases.values[name].group) then {name} else {})
  {
    var after := Insert(aliases, name, aliases.values[name].(enabled := true));
    assert forall n :: n in after.values ==> after.values[n].group == aliases.values[n].group;
  }

  /** Enabling a group makes its enabled members visible and touches nothing
      else. */
  lemma EnableGroupVisible(aliases: IndexMap<Alias>, groups: IndexMap<bool>, name: string)
    requires name in groups.values
    ensures Visible(aliases, Insert(groups, name, true)) ==
      Visible(aliases, groups) + (set n | n in WithEnabled(Members(aliases, Some(name)), aliases, true))
  {
    var after := Insert(groups, name, true);
    forall n | n in aliases.values && aliases.values[n].group.Some? && aliases.values[n].group.value != name
      ensures GroupEnabled(after, aliases.values[n].group.value) == GroupEnabled(groups, aliases.values[n].group.value)
    {
    }
  }

  /** `enable_alias`: a missing alias fails; otherwise it is enabled. Its
      definition goes to the shell unless its group is disabled. The source
      indexes the group table with the alias's group, which panics on an
      unregistered group; the precondition excludes that. */
  method EnableAlias(config: Config, name: string) returns (r: OpResult)
    requires name in config.aliases.values && config.aliases.values[name].group.Some? ==>
      config.aliases.values[name].group.value in config.groups.values
    modifies config
    ensures name !in old(config.aliases.values) <==> r == Err(AliasDoesNotExist)
    ensures r.Err? ==> r == Err(AliasDoesNotExist)
    ensures r.Err? ==> unchanged(config)
    ensures config.groups == old(config.groups)
    ensures r.Ok? ==>
      var alias := old(config.aliases.values[name]).(enabled := true);
      && config.aliases == Insert(old(config.aliases), name, alias)
      && r.value == (if GroupOn(config.groups, alias.group) then Command(AddAliasStr(name, alias)) else ConfigChanged)
    ensures r == Ok(ConfigChanged) ==> Visible(config.aliases, config.groups) == Visible(old(config.aliases), old(config.groups))
    ensures r.Ok? && r.value.Command? ==>
      Visible(config.aliases, config.groups) == Visible(old(config.aliases), old(config.groups)) + {name}
    ensures old(config.GroupsRegistered()) ==> config.GroupsRegistered()
  {
    if name !in config.aliases.values {
      return Err(AliasDoesNotExist);
    }
    EnableAliasVisible(config.aliases, config.groups, name);
    var alias := config.aliases.values[name].(enabled := true);
    config.aliases := Insert(config.aliases, name, alias);
    if alias.group.Some? && !config.groups.values[alias.group.value] {
      return Ok(ConfigChanged);
    }
    r := Ok(Command(AddAliasStr(name, alias)));
  }

  /** `enable_group`: a missing group fails; otherwise the group is enabled.
      If none of its members is enabled the shell needs nothing; otherwise it
      gets one definition per enabled member, in alias order, each ending in a
      newline. Either way the members that are enabled become visible. */
  method EnableGroup(config: Config, name: string, shell: ShellType) returns (r: OpResult)
    modifies config
    ensures name !in old(config.groups.values) <==> r == Err(GroupDoesNotExist)
    ensures r.Err? ==> r == Err(GroupDoesNotExist)
    ensures r.Err? ==> unchanged(config)
    ensures config.aliases == old(config.aliases)
    ensures r.Ok? ==>
      var shown := WithEnabled(Members(config.aliases, Some(name)), config.aliases, true);
      && config.groups == Insert(old(config.groups), name, true)
      && r.value == (if shown == [] then ConfigChanged else Command(Terminated(DefineLines(shown, config.aliases))))
      && Visible(config.aliases, config.groups) == Visible(old(config.aliases), old(config.groups)) + (set n | n in shown)
  {
    if name !in config.groups.values {
      return Err(GroupDoesNotExist);
    }
    EnableGroupVisible(config.aliases, config.groups, name);
    config.groups := Insert(config.groups, name, true);
    var members := GetSingleGroup(config, Named(name));
    var shown := WithEnabled(members.value, config.aliases, true);
    if shown == [] {
      return Ok(ConfigChanged);
    }
    var command := DefinitionText(shown, config.aliases);
    r := Ok(Command(command));
  }

  /** The loop of `enable_group` that writes the definition of every shown
      member, each followed by a newline. */
  method DefinitionText(shown: seq<string>, aliases: IndexMap<Alias>) returns (command: string)
    requires forall n :: n in shown ==> n in aliases.values
    ensures command == Terminated(DefineLines(shown, aliases))
  {
    ghost var lines := DefineLines(shown, aliases);
    command := "";
    var i := 0;
    while i < |shown|
      invariant 0 <= i <= |shown|
      invariant command == Terminated(lines[..i])
    {
      TerminatedExtend(lines, i);
      command := command + AddAliasStr(shown[i], aliases.values[shown[i]]) + "\n";
      i := i + 1;
    }
    assert lines[..i] == lines;
  }
}
