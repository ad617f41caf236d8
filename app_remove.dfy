/** The interactive `remove` command: one alias, a named group (its members
    removed or made ungrouped), the ungrouped aliases, or everything after a
    confirmation. The user's answer is a parameter. */
module AppRemove {
  import opened Wrappers
  import opened IndexMaps
  import opened ConfigTypes
  import opened Core
  import opened CoreList
  import opened CoreMove
  import opened CoreRemove
  import opened ShellText

  /** What `remove` acts on. `GroupOf(None, _)` names the ungrouped aliases. */
  datatype RemoveTarget = OneAlias(name: string) | GroupOf(group: Option<string>, reassign: bool) | Everything

  /** Every one of `names` is an alias of `m`. */
  predicate AllIn(names: seq<string>, m: IndexMap<Alias>) {
    forall n :: n in names ==> n in m.values
  }

  /** The map left after moving each of `names`, one after the other, out of
      its group. */
  function Detached(m: IndexMap<Alias>, names: seq<string>): (r: IndexMap<Alias>)
    requires AllIn(names, m)
    ensures r.keys == m.keys
    ensures forall n :: n in r.values <==> n in m.values
    decreases |names|
  {
    if names == [] then m
    else
      var p := Detached(m, names[..|names| - 1]);
      var last := names[|names| - 1];
      Insert(p, last, p.values[last].(group := None))
  }

  /** Exactly the aliases in `names` lose their group; every other field
      and every other alias is kept. */
  lemma {:induction false} DetachedValues(m: IndexMap<Alias>, names: seq<string>)
    requires AllIn(names, m)
    ensures var r := Detached(m, names);
      forall n :: n in r.values ==> r.values[n] == if n in names then m.values[n].(group := None) else m.values[n]
    decreases |names|
  {
    if names != [] {
      var init := names[..|names| - 1];
      assert forall n :: n in names <==> n in init || n == names[|names| - 1];
      DetachedValues(m, init);
    }
  }

  /** `Detached` on one more name. */
  lemma DetachedStep(m: IndexMap<Alias>, names: seq<string>, i: nat)
    requires i < |names| && AllIn(names[..i + 1], m)
    ensures AllIn(names[..i], m)
    ensures var p := Detached(m, names[..i]);
      Detached(m, names[..i + 1]) == Insert(p, names[i], p.values[names[i]].(group := None))
  {
    assert names[..i + 1][..i] == names[..i];
  }

  /** The reassign loop of `handle_remove`: each name is moved out of its
      group; a missing name stops the loop with `AliasDoesNotExist`, the
      moves before it done. */
  method ReassignMembers(config: Config, names: seq<string>) returns (r: Result<(), Failure>)
    modifies config
    ensures config.groups == old(config.groups)
    ensures r.Ok? <==> AllIn(names, old(config.aliases))
    ensures r.Ok? ==> config.aliases == Detached(old(config.aliases), names)
    ensures r.Err? ==> r.error == AliasDoesNotExist
    ensures r.Err? ==> exists k :: (0 <= k < |names| && names[k] !in old(config.aliases.values) &&
      AllIn(names[..k], old(config.aliases)) && config.aliases == Detached(old(config.aliases), names[..k]))
  {
    var i := 0;
    while i < |names|
      invariant 0 <= i <= |names|
      invariant config.groups == old(config.groups)
      invariant AllIn(names[..i], old(config.aliases))
      invariant config.aliases == Detached(old(config.aliases), names[..i])
    {
      var moved := MoveAlias(config, names[i], None);
      if moved.Err? {
        assert names[i] in names;
        return Err(moved.error);
      }
      assert forall n :: n in names[..i + 1] ==> n in names[..i] || n == names[i];
      DetachedStep(old(config.aliases), names, i);
      i := i + 1;
    }
    assert names[..i] == names;
    r := Ok(());
  }

  /** `handle_remove_all`: everything goes on a yes, nothing on a no. */
  method HandleRemoveAll(config: Config, confirmation: bool) returns (r: OpResult)
    modifies config
    ensures confirmation ==>
      && config.aliases.keys == [] && config.aliases.values == map[]
      && config.groups.keys == [] && config.groups.values == map[]
      && r == Ok(Command("unalias -a"))
    ensures !confirmation ==> r == Ok(NoChanges) && unchanged(config)
  {
    if confirmation {
      r := RemoveAll(config);
    } else {
      r := Ok(NoChanges);
    }
  }

  /** `handle_remove`. A named group must exist; its entry goes first, then
      its members, listed beforehand, are either made ungrouped (saved only)
      or removed (one `unalias` each). Ungrouped aliases are removed the
      same way. No alias is left naming a removed group. */
  method HandleRemove(config: Config, target: RemoveTarget, shell: ShellType, confirmation: bool) returns (r: OpResult)
    modifies config
    ensures target.OneAlias? ==>
      if target.name !in old(config.aliases.values) then r == Err(AliasDoesNotExist) && unchanged(config)
      else
        && r == Ok(Command(UnaliasLine(target.name)))
        && config.aliases == ShiftRemove(old(config.aliases), target.name)
        && config.groups == old(config.groups)
    ensures target.GroupOf? && target.group.Some? && target.group.value !in old(config.groups.values) ==>
      r == Err(GroupDoesNotExist) && unchanged(config)
    ensures target.GroupOf? && target.group.Some? && target.group.value in old(config.groups.values) ==>
      var members := Members(old(config.aliases), target.group);
      && config.groups == ShiftRemove(old(config.groups), target.group.value)
      && (if target.reassign then
            r == Ok(ConfigChanged) && config.aliases == Detached(old(config.aliases), members)
          else
            r == Ok(Command(JoinLines(UnaliasLines(members))))
            && config.aliases == RemoveNames(old(config.aliases), members))
      && forall n :: n in config.aliases.values ==> config.aliases.values[n].group != target.group
    ensures target.GroupOf? && target.group.None? ==>
      var members := Members(old(config.aliases), None);
      && r == Ok(Command(JoinLines(UnaliasLines(members))))
      && config.aliases == RemoveNames(old(config.aliases), members)
      && config.groups == old(config.groups)
      && forall n :: n in config.aliases.values <==> n in old(config.aliases.values) && n !in members
    ensures target.Everything? ==>
      if confirmation then
        && config.aliases.keys == [] && config.aliases.values == map[]
        && config.groups.keys == [] && config.groups.values == map[]
        && r == Ok(Command("unalias -a"))
      else r == Ok(NoChanges) && unchanged(config)
    ensures old(config.GroupsRegistered()) ==> config.GroupsRegistered()
  {
    match target
    case OneAlias(name) =>
      r := RemoveAlias(config, name);
    case GroupOf(group, reassign) =>
      if group.Some? {
        var name := group.value;
        var listed := GetSingleGroup(config, Named(name));
        if listed.Err? {
          return Err(listed.error);
        }
        var members := listed.value;
        ghost var before := config.aliases;
        ghost var registered := old(config.GroupsRegistered());
        var removed := RemoveGroup(config, name);
        assert removed.Ok?;
        if reassign {
          var moved := ReassignMembers(config, members);
          assert moved.Ok?;
          DetachedValues(before, members);
          r := Ok(ConfigChanged);
        } else {
          AllPresentIff(before, members);
          r := RemoveAliases(config, members);
          RemoveNamesValues(before, members);
        }
        LeftWithoutGroup(before, members, name, config.aliases);
        if registered {
          StillRegistered(before, old(config.groups), name, config.aliases, config.groups);
        }
      } else {
        var listed := GetSingleGroup(config, Ungrouped);
        var members := listed.value;
        ghost var before := config.aliases;
        AllPresentIff(before, members);
        r := RemoveAliases(config, members);
        RemoveNamesValues(before, members);
      }
    case Everything =>
      r := HandleRemoveAll(config, confirmation);
  }

  /** What is left of the aliases after the members of `name` were
      detached or removed names no alias in `name`. */
  lemma LeftWithoutGroup(before: IndexMap<Alias>, members: seq<string>, name: string, after: IndexMap<Alias>)
    requires members == Members(before, Some(name))
    requires after == Detached(before, members) ||
      after.values == before.values - (set n | n in members)
    ensures forall n :: n in after.values ==> after.values[n].group != Some(name)
  {
    if after == Detached(before, members) {
      DetachedValues(before, members);
    }
  }

  /** Every alias left names an available group whenever every alias named
      one before the removal. */
  lemma StillRegistered(before: IndexMap<Alias>, groups: IndexMap<bool>, name: string,
                        after: IndexMap<Alias>, groups': IndexMap<bool>)
    requires forall n :: n in before.values && before.values[n].group.Some? ==>
      before.values[n].group.value in groups.values
    requires groups' == ShiftRemove(groups, name)
    requires forall n :: n in after.values ==> n in before.values && after.values[n].group != Some(name)
    requires forall n :: n in after.values ==> after.values[n].group.None? || after.values[n] == before.values[n]
    ensures forall n :: n in after.values && after.values[n].group.Some? ==>
      after.values[n].group.value in groups'.values
  {
  }

  /** Reassigning the members of a disabled group makes its enabled members
      visible to the shell, although the outcome, `ConfigChanged`, sends the
      shell nothing. */
  lemma ReassignDisabledGroupShows(aliases: IndexMap<Alias>, groups: IndexMap<bool>, name: string, a: string)
    requires name in groups.values && !groups.values[name]
    requires a in aliases.values && aliases.values[a].enabled && aliases.values[a].group == Some(name)
    ensures a !in Visible(aliases, groups)
    ensures a in Visible(Detached(aliases, Members(aliases, Some(name))), ShiftRemove(groups, name))
  {
    DetachedValues(aliases, Members(aliases, Some(name)));
  }

  /** The unit tests' configuration: `ls` in the enabled group `files`, `rm`
      ungrouped. */
  function RemoveSample(): (m: IndexMap<Alias>)
    ensures m.keys == ["ls", "rm"]
    ensures m.values["ls"].group == Some("files") && m.values["rm"].group == None
  {
    Insert(Insert(Empty(), "ls", NewAlias("ls -la", Some("files"), true, false)),
           "rm", NewAlias("rm -rf", None, true, false))
  }

  /** Removing `files` without reassigning unaliases `ls` alone. */
  lemma RemoveGroupExample()
    ensures Members(RemoveSample(), Some("files")) == ["ls"]
  {
    SampleSelect(RemoveSample().keys, RemoveSample().values);
  }

  /** The command sent for that removal. */
  lemma RemoveGroupExampleText()
    ensures JoinLines(UnaliasLines(["ls"])) == "unalias 'ls'"
  {
    assert UnaliasLines(["ls"]) == [UnaliasLine("ls")];
  }

  /** Removing the ungrouped aliases removes `rm` alone. */
  lemma RemoveUngroupedExample()
    ensures Members(RemoveSample(), None) == ["rm"]
  {
    SampleSelect(RemoveSample().keys, RemoveSample().values);
  }

  /** Selecting each group of the sample, one key at a time. */
  lemma SampleSelect(keys: seq<string>, values: map<string, Alias>)
    requires keys == ["ls", "rm"] && "ls" in values && "rm" in values
    requires values["ls"].group == Some("files") && values["rm"].group == None
    ensures Select(keys, values, Some("files")) == ["ls"]
    ensures Select(keys, values, None) == ["rm"]
  {
    assert keys[..0] == [] && keys[..2] == keys;
    SelectStep(keys, 0, values, Some("files"));
    SelectStep(keys, 1, values, Some("files"));
    SelectStep(keys, 0, values, None);
    SelectStep(keys, 1, values, None);
  }
}
