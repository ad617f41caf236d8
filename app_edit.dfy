/** The interactive `edit` command: a new command for an alias, optional
    toggles of its flags and an optional new group, with the offer to create
    a missing group. The user's answer is a parameter. */
module AppEdit {
  import opened Wrappers
  import opened IndexMaps
  import opened ConfigTypes
  import opened Core
  import opened CoreAdd
  import opened CoreEdit

  /** The arguments of `edit`. `group` is absent to keep the alias's group,
      `Some(None)` to make it ungrouped, `Some(Some(g))` to put it in `g`. */
  datatype EditCommand = EditCommand(name: string, newCommand: string, toggleEnable: bool, toggleGlobal: bool,
                                     group: Option<Option<string>>)

  /** The alias `handle_edit` builds from the existing one. */
  function Edited(a: Alias, cmd: EditCommand): (b: Alias)
    ensures b.command == cmd.newCommand && b.detailed == a.detailed
    ensures b.enabled == (a.enabled != cmd.toggleEnable)
    ensures b.global == (a.global != cmd.toggleGlobal)
    ensures b.group == (if cmd.group.Some? then cmd.group.value else a.group)
  {
    var b := a.(command := cmd.newCommand);
    var b := if cmd.toggleEnable then b.(enabled := !a.enabled) else b;
    var b := if cmd.toggleGlobal then b.(global := !a.global) else b;
    if cmd.group.Some? then b.(group := cmd.group.value) else b
  }

  /** Editing back with the old command and the same toggles, keeping the
      group, restores the alias: each toggle undoes itself. */
  lemma EditedTwiceRestores(a: Alias, cmd: EditCommand)
    requires cmd.group.None?
    ensures Edited(Edited(a, cmd), cmd.(newCommand := a.command)) == a
  {
  }

  /** The group `handle_edit` would have to create for `cmd`, if any. */
  predicate NeedsGroup(groups: IndexMap<bool>, cmd: EditCommand) {
    cmd.group.Some? && cmd.group.value.Some? && cmd.group.value.value !in groups.values
  }

  /** `handle_nonexistent_group`: on a yes the group is inserted enabled, on
      a no the edit fails with `GroupDoesNotExist`. */
  method HandleNonexistentGroup(config: Config, groupName: string, createGroup: string -> bool)
    returns (r: Result<(), Failure>)
    modifies config
    ensures createGroup(groupName) ==>
      r.Ok? && config.groups == Insert(old(config.groups), groupName, true) && config.aliases == old(config.aliases)
    ensures !createGroup(groupName) ==> r == Err(GroupDoesNotExist) && unchanged(config)
  {
    if createGroup(groupName) {
      config.groups := Insert(config.groups, groupName, true);
      r := Ok(());
    } else {
      r := Err(GroupDoesNotExist);
    }
  }

  /** `handle_edit`: a missing alias fails with `AliasDoesNotExist`, and no
      group is created for it. Otherwise the existing alias is copied with
      the new command, the requested toggles and group; a missing group is
      offered for creation and a refusal fails with nothing changed. The
      edited alias replaces the old one and its definition goes to the
      shell. */
  method HandleEdit(config: Config, cmd: EditCommand, createGroup: string -> bool) returns (r: OpResult)
    modifies config
    ensures cmd.name !in old(config.aliases.values) ==> r == Err(AliasDoesNotExist) && unchanged(config)
    ensures cmd.name in old(config.aliases.values) ==>
      var b := Edited(old(config.aliases.values[cmd.name]), cmd);
      if NeedsGroup(old(config.groups), cmd) && !createGroup(cmd.group.value.value) then
        r == Err(GroupDoesNotExist) && unchanged(config)
      else
        && r == Ok(Command(AddAliasStr(cmd.name, b)))
        && config.aliases == Insert(old(config.aliases), cmd.name, b)
        && config.aliases.keys == old(config.aliases.keys)
        && config.groups ==
             (if NeedsGroup(old(config.groups), cmd) then Insert(old(config.groups), cmd.group.value.value, true)
              else old(config.groups))
  {
    var newAlias := NewAlias("", None, true, false);
    if cmd.name in config.aliases.values {
      var oldAlias := config.aliases.values[cmd.name];
      newAlias := Edited(oldAlias, cmd);
      if cmd.group.Some? && cmd.group.value.Some? && cmd.group.value.value !in config.groups.values {
        var created := HandleNonexistentGroup(config, cmd.group.value.value, createGroup);
        if created.Err? {
          return Err(created.error);
        }
      }
    }
    r := ReplaceAlias(config, cmd.name, newAlias);
  }

  /** The unit tests' edits of an enabled, ungrouped, local alias. */
  lemma EditExamples()
    ensures var a := NewAlias("original_command", None, true, false);
      && Edited(a, EditCommand("test", "edited_command", false, false, None)).command == "edited_command"
      && !Edited(a, EditCommand("test", "edit_command", true, false, None)).enabled
      && Edited(a, EditCommand("test", "edit_command", false, true, None)).global
      && Edited(a, EditCommand("test", "edit_command", false, false, Some(Some("dev")))).group == Some("dev")
  {
  }
}
