/** Editing the command of an alias. */
module CoreEdit {
  import opened Wrappers
  import opened IndexMaps
  import opened ConfigTypes
  import opened Core
  import opened ShellText
  import opened CoreAdd

  /** `edit_alias`: a missing alias fails; otherwise only its command changes
      and the new definition goes to the shell. */
  method EditAlias(config: Config, name: string, newCommand: string) returns (r: OpResult)
    modifies config
    ensures name !in old(config.aliases.values) <==> r == Err(AliasDoesNotExist)
    ensures r.Ok? <==> name in old(config.aliases.values)
    ensures r.Err? ==> unchanged(config)
    ensures r.Ok? ==>
      && config.aliases == Insert(old(config.aliases), name, old(config.aliases.values[name]).(command := newCommand))
      && config.aliases.keys == old(config.aliases.keys)
      && config.groups == old(config.groups)
      && r.value == Command(AliasLine(name, newCommand))
    ensures old(config.GroupsRegistered()) ==> config.GroupsRegistered()
  {
    if name !in config.aliases.values {
      return Err(AliasDoesNotExist);
    }
    var alias := config.aliases.values[name];
    config.aliases := Insert(config.aliases, name, alias.(command := newCommand));
    r := Ok(Command(AliasLine(name, newCommand)));
  }

  /** `edit_alias(config, name, &alias)`, the form the interactive edit calls.
      Its definition is not part of this model; this follows its documented
      contract: a missing alias fails, otherwise the alias is replaced
      wholesale and its full new definition goes to the shell. */
  method ReplaceAlias(config: Config, name: string, alias: Alias) returns (r: OpResult)
    modifies config
    ensures name !in old(config.aliases.values) <==> r == Err(AliasDoesNotExist)
    ensures r.Ok? <==> name in old(config.aliases.values)
    ensures r.Err? ==> unchanged(config)
    ensures r.Ok? ==>
      && config.aliases == Insert(old(config.aliases), name, alias)
      && config.aliases.keys == old(config.aliases.keys)
      && config.groups == old(config.groups)
      && r.value == Command(AddAliasStr(name, alias))
  {
    if name !in config.aliases.values {
      return Err(AliasDoesNotExist);
    }
    config.aliases := Insert(config.aliases, name, alias);
    r := Ok(Command(AddAliasStr(name, alias)));
  }
}
