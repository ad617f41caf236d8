/** Renaming an alias or a group. */
module CoreRename {
  import opened Wrappers
  import opened IndexMaps
  import opened ConfigTypes
  import opened Core
  import opened ShellText
  import opened CoreAdd
  import opened CoreRemove

  /** `rename_alias`: a missing old name fails first, then a taken new name.
      Otherwise the old entry is removed and a copy of it is added under the
      new name; the shell forgets the old name and learns the new one. The
      copy is added through `add_alias`, so a copy whose group is not
      registered fails there, after the old entry is already gone. The two
      `UnexpectedBehavior` branches of the source cannot be reached: removing
      a present alias and adding under a free name both yield a `Command`. */
  method RenameAlias(config: Config, oldName: string, newName: string) returns (r: OpResult)
    modifies config
    ensures oldName !in old(config.aliases.values) ==> r == Err(AliasDoesNotExist) && unchanged(config)
    ensures oldName in old(config.aliases.values) && newName in old(config.aliases.values) ==>
      r == Err(AliasAlreadyExists) && unchanged(config)
    ensures config.groups == old(config.groups)
    ensures oldName in old(config.aliases.values) && newName !in old(config.aliases.values) ==>
      var alias := old(config.aliases.values[oldName]);
      var rest := ShiftRemove(old(config.aliases), oldName);
      if alias.group.Some? && alias.group.value !in config.groups.values then
        r == Err(GroupDoesNotExist) && config.aliases == rest
      else
        && config.aliases == Insert(rest, newName, alias)
        && config.aliases.keys == rest.keys + [newName]
        && r == Ok(Command(UnaliasLine(oldName) + "\n" + AddAliasStr(newName, alias)))
    ensures old(config.GroupsRegistered()) ==>
      && config.GroupsRegistered()
      && (r.Ok? <==> oldName in old(config.aliases.values) && newName !in old(config.aliases.values))
  {
    if oldName !in config.aliases.values {
      return Err(AliasDoesNotExist);
    }
    if newName in config.aliases.values {
      return Err(AliasAlreadyExists);
    }
    var alias := config.aliases.values[oldName];
    var removed := RemoveAlias(config, oldName);
    var added := AddAlias(config, newName, alias);
    if added.Err? {
      return added;
    }
    r := Ok(Command(removed.value.text + "\n" + added.value.text));
  }

  /** An alias with its group field repointed from `from` to `to`. */
  function Retarget(alias: Alias, from: string, to: string): (a: Alias)
    ensures a.group == (if alias.group == Some(from) then Some(to) else alias.group)
    ensures a.(group := alias.group) == alias
  {
    if alias.group == Some(from) then alias.(group := Some(to)) else alias
  }

  /** Every alias of group `from` moved to group `to`; order and all other
      fields kept. */
  function Regroup(aliases: IndexMap<Alias>, from: string, to: string): (r: IndexMap<Alias>)
    ensures r.keys == aliases.keys
    ensures forall n :: n in r.values <==> n in aliases.values
    ensures forall n :: n in r.values ==> r.values[n] == Retarget(aliases.values[n], from, to)
  {
    OrderedMap(aliases.keys, map n | n in aliases.values :: Retarget(aliases.values[n], from, to))
  }

  /** `rename_group`: a missing old group fails first, then a taken new name.
      Otherwise the group is removed, re-added at the end of the group order
      with the same flag, and every member is repointed. Every group being
      registered, nothing visible to the shell changes. */
  method RenameGroup(config: Config, oldGroup: string, newGroup: string) returns (r: OpResult)
    modifies config
    ensures oldGroup !in old(config.groups.values) ==> r == Err(GroupDoesNotExist)
    ensures oldGroup in old(config.groups.values) && newGroup in old(config.groups.values) ==> r == Err(GroupAlreadyExists)
    ensures r.Ok? <==> oldGroup in old(config.groups.values) && newGroup !in old(config.groups.values)
    ensures r.Err? ==> unchanged(config)
    ensures r.Ok? ==>
      && r.value == ConfigChanged
      && config.groups == Insert(ShiftRemove(old(config.groups), oldGroup), newGroup, old(config.groups.values[oldGroup]))
      && config.groups.keys == ShiftRemove(old(config.groups), oldGroup).keys + [newGroup]
      && config.aliases == Regroup(old(config.aliases), oldGroup, newGroup)
    ensures r.Ok? && old(config.GroupsRegistered()) ==>
      config.GroupsRegistered() && Visible(config.aliases, config.groups) == Visible(old(config.aliases), old(config.groups))
  {
    if oldGroup !in config.groups.values {
      return Err(GroupDoesNotExist);
    }
    if newGroup in config.groups.values {
      return Err(GroupAlreadyExists);
    }
    var enabled := config.groups.values[oldGroup];
    config.groups := Insert(ShiftRemove(config.groups, oldGroup), newGroup, enabled);

    ghost var original := config.aliases;
    RepointMembers(config, oldGroup, newGroup);
    if old(config.GroupsRegistered()) {
      RenameGroupKeepsVisible(original, old(config.groups), oldGroup, newGroup);
    }
    r := Ok(ConfigChanged);
  }

  /** The loop of `rename_group` that points every member of `from` at `to`. */
  method RepointMembers(config: Config, from: string, to: string)
    modifies config
    ensures config.groups == old(config.groups)
    ensures config.aliases == Regroup(old(config.aliases), from, to)
  {
    var original := config.aliases;
    var keys := config.aliases.keys;
    var i := 0;
    while i < |keys|
      invariant 0 <= i <= |keys|
      invariant config.groups == old(config.groups)
      invariant config.aliases.keys == keys
      invariant forall n :: n in config.aliases.values <==> n in original.values
      invariant forall j :: 0 <= j < |keys| ==>
        config.aliases.values[keys[j]] == (if j < i then Retarget(original.values[keys[j]], from, to) else original.values[keys[j]])
    {
      var alias := config.aliases.values[keys[i]];
      if alias.group == Some(from) {
        config.aliases := Insert(config.aliases, keys[i], alias.(group := Some(to)));
      }
      i := i + 1;
    }
    forall n | n in config.aliases.values
      ensures config.aliases.values[n] == Retarget(original.values[n], from, to)
    {
      var j := IndexOf(keys, n);
    }
  }

  /** When every group is registered and `to` is a new group, renaming `from`
      to `to` with the same flag keeps every group registered and the visible
      set as it was. */
  lemma RenameGroupKeepsVisible(aliases: IndexMap<Alias>, groups: IndexMap<bool>, from: string, to: string)
    requires from in groups.values && to !in groups.values
    requires forall n :: n in aliases.values && aliases.values[n].group.Some? ==> aliases.values[n].group.value in groups.values
    ensures var a := Regroup(aliases, from, to);
      var g := Insert(ShiftRemove(groups, from), to, groups.values[from]);
      && (forall n :: n in a.values && a.values[n].group.Some? ==> a.values[n].group.value in g.values)
      && Visible(a, g) == Visible(aliases, groups)
  {
    var a := Regroup(aliases, from, to);
    var g := Insert(ShiftRemove(groups, from), to, groups.values[from]);
    forall n | n in aliases.values
      ensures a.values[n].group.Some? ==> a.values[n].group.value in g.values
      ensures GroupOn(g, a.values[n].group) == GroupOn(groups, aliases.values[n].group)
    {
      RenamedGroupOn(groups, from, to, aliases.values[n].group);
    }
  }

  /** One alias's group under the rename: still registered, and on exactly
      when it was. */
  lemma RenamedGroupOn(groups: IndexMap<bool>, from: string, to: string, group: Option<string>)
    requires from in groups.values && to !in groups.values
    requires group.Some? ==> group.value in groups.values
    ensures var g := Insert(ShiftRemove(groups, from), to, groups.values[from]);
      var moved := if group == Some(from) then Some(to) else group;
      && (moved.Some? ==> moved.value in g.values)
      && GroupOn(g, moved) == GroupOn(groups, group)
  {
    var g := Insert(ShiftRemove(groups, from), to, groups.values[from]);
    assert g.values == (groups.values - {from})[to := groups.values[from]];
  }
}
