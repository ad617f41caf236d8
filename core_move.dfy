/** Moving an alias to another group, or out of every group. */
module CoreMove {
  import opened Wrappers
  import opened IndexMaps
  import opened ConfigTypes
  import opened Core

  /** `move_alias`: a missing alias fails first, then an unregistered target
      group; otherwise only the alias's group field changes. */
  method MoveAlias(config: Config, name: string, newGroup: Option<string>) returns (r: OpResult)
    modifies config
    ensures name !in old(config.aliases.values) ==> r == Err(AliasDoesNotExist)
    ensures name in old(config.aliases.values) && newGroup.Some? && newGroup.value !in old(config.groups.values) ==>
      r == Err(GroupDoesNotExist)
    ensures r.Ok? <==> name in old(config.aliases.values) && (newGroup.None? || newGroup.value in old(config.groups.values))
    ensures r.Err? ==> unchanged(config)
    ensures r.Ok? ==>
      && config.aliases == Insert(old(config.aliases), name, old(config.aliases.values[name]).(group := newGroup))
      && config.aliases.keys == old(config.aliases.keys)
      && r.value == ConfigChanged
    ensures config.groups == old(config.groups)
    ensures old(config.GroupsRegistered()) ==> config.GroupsRegistered()
    ensures r.Ok? && GroupOn(config.groups, newGroup) == GroupOn(config.groups, old(config.aliases.values[name].group)) ==>
      Visible(config.aliases, config.groups) == Visible(old(config.aliases), old(config.groups))
  {
    if name !in config.aliases.values {
      return Err(AliasDoesNotExist);
    }
    if newGroup.Some? && newGroup.value !in config.groups.values {
      return Err(GroupDoesNotExist);
    }
    var alias := config.aliases.values[name];
    config.aliases := Insert(config.aliases, name, alias.(group := newGroup));
    r := Ok(ConfigChanged);
  }

  /** The shell is not told about a move, yet moving an enabled alias out of
      an enabled group into a disabled one takes it out of the visible set. */
  lemma MoveIntoDisabledGroupHides(aliases: IndexMap<Alias>, groups: IndexMap<bool>, name: string, target: string)
    requires name in aliases.values && aliases.values[name].enabled
    requires GroupOn(groups, aliases.values[name].group)
    requires target in groups.values && !groups.values[target]
    ensures name in Visible(aliases, groups)
    ensures name !in Visible(Insert(aliases, name, aliases.values[name].(group := Some(target))), groups)
  {
  }
}
