/** Disabling an alias or a group. */
module CoreDisable {
  import opened Wrappers
  import opened IndexMaps
  import opened ConfigTypes
  import opened Core
  import opened ShellText
  import opened CoreList
  import opened CoreEnable

  /** Per name, its `unalias` statement followed by an extra newline, as the
      loop of `disable_group` writes it before terminating each one. */
  function UnaliasBlocks(names: seq<string>): seq<string> {
    seq(|names|, i requires 0 <= i < |names| => UnaliasLine(names[i]) + "\n")
  }

  /** Disabling an enabled alias hides it from the shell exactly when its
      group is on. */
  lemma DisableAliasVisible(aliases: IndexMap<Alias>, groups: IndexMap<bool>, name: string)
    requires name in aliases.values
    ensures var after := Insert(aliases, name, aliases.values[name].(enabled := false));
      Visible(after, groups) == Visible(aliases, groups) - {name}
  {
    var after := Insert(aliases, name, aliases.values[name].(enabled := false));
    assert forall n :: n in after.values ==> after.values[n].group == aliases.values[n].group;
  }

  /** Disabling a group hides its members and touches nothing else. */
  lemma DisableGroupVisible(aliases: IndexMap<Alias>, groups: IndexMap<bool>, name: string)
    requires name in groups.values
    ensures Visible(aliases, Insert(groups, name, false)) ==
      Visible(aliases, groups) - (set n | n in Members(aliases, Some(name)))
  {
    var after := Insert(groups, name, false);
    forall n | n in aliases.values && aliases.values[n].group.Some? && aliases.values[n].group.value != name
      ensures GroupEnabled(after, aliases.values[n].group.value) == GroupEnabled(groups, aliases.values[n].group.value)
    {
    }
  }

  /** `disable_alias`: a missing alias fails and a disabled one is left alone.
      Otherwise it is disabled, and the shell forgets it unless its group is
      disabled. The source indexes the group table with the alias's group,
      which panics on an unregistered group; the precondition excludes that. */
  method DisableAlias(config: Config, name: string) returns (r: OpResult)
    requires (name in config.aliases.values && config.aliases.values[name].enabled && config.aliases.values[name].group.Some?) ==>
      config.aliases.values[name].group.value in config.groups.values
    modifies config
    ensures name !in old(config.aliases.values) <==> r == Err(AliasDoesNotExist)
    ensures r.Err? ==> r == Err(AliasDoesNotExist)
    ensures name in old(config.aliases.values) && !old(config.aliases.values[name].enabled) <==> r == Ok(NoChanges)
    ensures r.Err? || r == Ok(NoChanges) ==> unchanged(config)
    ensures config.groups == old(config.groups)
    ensures r.Ok? && r.value != NoChanges ==>
      var alias := old(config.aliases.values[name]).(enabled := false);
      && config.aliases == Insert(old(config.aliases), name, alias)
      && r.value == (if GroupOn(config.groups, alias.group) then Command(UnaliasLine(name)) else ConfigChanged)
    ensures r.Ok? && !r.value.Command? ==> Visible(config.aliases, config.groups) == Visible(old(config.aliases), old(config.groups))
    ensures r.Ok? && r.value.Command? ==>
      Visible(config.aliases, config.groups) == Visible(old(config.aliases), old(config.groups)) - {name}
    ensures old(config.GroupsRegistered()) ==> config.GroupsRegistered()
  {
    if name !in config.aliases.values {
      return Err(AliasDoesNotExist);
    }
    var alias := config.aliases.values[name];
    if !alias.enabled {
      return Ok(NoChanges);
    }
    DisableAliasVisible(config.aliases, config.groups, name);
    alias := alias.(enabled := false);
    config.aliases := Insert(config.aliases, name, alias);
    if alias.group.Some? && !config.groups.values[alias.group.value] {
      return Ok(ConfigChanged);
    }
    r := Ok(Command(UnaliasLine(name)));
  }

  /** `disable_group`: a missing group fails and a disabled one is left alone.
      Otherwise the group is disabled. If none of its members is enabled the
      shell needs nothing; otherwise it gets one `unalias` per enabled member,
      in alias order, each followed by an empty line. Either way the members
      leave the visible set. */
  method DisableGroup(config: Config, name: string, shell: ShellType) returns (r: OpResult)
    modifies config
    ensures name !in old(config.groups.values) <==> r == Err(GroupDoesNotExist)
    ensures r.Err? ==> r == Err(GroupDoesNotExist)
    ensures name in old(config.groups.values) && !old(config.groups.values[name]) <==> r == Ok(NoChanges)
    ensures r.Err? || r == Ok(NoChanges) ==> unchanged(config)
    ensures config.aliases == old(config.aliases)
    ensures r.Ok? && r.value != NoChanges ==>
      var hidden := WithEnabled(Members(config.aliases, Some(name)), config.aliases, true);
      && config.groups == Insert(old(config.groups), name, false)
      && r.value == (if hidden == [] then ConfigChanged else Command(Terminated(UnaliasBlocks(hidden))))
      && Visible(config.aliases, config.groups) ==
           Visible(old(config.aliases), old(config.groups)) - (set n | n in Members(config.aliases, Some(name)))
    ensures r == Ok(ConfigChanged) ==> Visible(config.aliases, config.groups) == Visible(old(config.aliases), old(config.groups))
  {
    if name !in config.groups.values {
      return Err(GroupDoesNotExist);
    }
    if !config.groups.values[name] {
      return Ok(NoChanges);
    }
    DisableGroupVisible(config.aliases, config.groups, name);
    config.groups := Insert(config.groups, name, false);
    var members := GetSingleGroup(config, Named(name));
    var hidden := WithEnabled(members.value, config.aliases, true);
    if hidden == [] {
      return Ok(ConfigChanged);
    }
    var command := GroupUnaliasText(hidden);
    r := Ok(Command(command));
  }

  /** The loop of `disable_group` that writes the `unalias` statement of
      every hidden member, each followed by an empty line. */
  method GroupUnaliasText(hidden: seq<string>) returns (command: string)
    ensures command == Terminated(UnaliasBlocks(hidden))
  {
    ghost var blocks := UnaliasBlocks(hidden);
    command := "";
    var i := 0;
    while i < |hidden|
      invariant 0 <= i <= |hidden|
      invariant command == Terminated(blocks[..i])
    {
      TerminatedExtend(blocks, i);
      command := command + UnaliasLine(hidden[i]) + "\n" + "\n";
      i := i + 1;
    }
    assert blocks[..i] == blocks;
  }
}
