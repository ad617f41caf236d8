/** The interactive `move` command: moving an alias, with the offer to
    create a missing target group. The user's answer is a parameter. */
module AppMove {
  import opened Wrappers
  import opened IndexMaps
  import opened ConfigTypes
  import opened Core
  import opened CoreAdd
  import opened CoreMove

  /** `handle_move`: a successful move, and every failure other than a
      missing group, are passed on as they are; a missing alias is reported
      before a missing group is. A missing target group is offered for
      creation: on a yes it is added enabled and the move retried once, on
      a no nothing changes. */
  method HandleMove(config: Config, name: string, newGroup: Option<string>, createGroup: string -> bool)
    returns (r: OpResult)
    modifies config
    ensures name !in old(config.aliases.values) ==> r == Err(AliasDoesNotExist) && unchanged(config)
    ensures name in old(config.aliases.values) && (newGroup.None? || newGroup.value in old(config.groups.values)) ==>
      && r == Ok(ConfigChanged)
      && config.aliases == Insert(old(config.aliases), name, old(config.aliases.values[name]).(group := newGroup))
      && config.groups == old(config.groups)
    ensures name in old(config.aliases.values) && newGroup.Some? && newGroup.value !in old(config.groups.values) ==>
      if createGroup(newGroup.value) then
        && r == Ok(ConfigChanged)
        && config.groups == Insert(old(config.groups), newGroup.value, true)
        && config.aliases == Insert(old(config.aliases), name, old(config.aliases.values[name]).(group := newGroup))
      else
        r == Ok(NoChanges) && unchanged(config)
    ensures config.aliases.keys == old(config.aliases.keys)
    ensures old(config.GroupsRegistered()) ==> config.GroupsRegistered()
  {
    var moved := MoveAlias(config, name, newGroup);
    if moved.Ok? {
      return moved;
    }
    if moved.error != GroupDoesNotExist {
      return moved;
    }
    var group := newGroup.value;
    if createGroup(group) {
      var added := AddGroupToConfig(config, group, true);
      // The group is missing here, so adding it cannot fail.
      assert added.Ok?;
      r := MoveAlias(config, name, Some(group));
    } else {
      r := Ok(NoChanges);
    }
  }
}
