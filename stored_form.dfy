/** The stored form of an alias (`detailed`) after `disable_alias`. The
    constructor derives it from the flags; `disable_alias` turns `enabled`
    off and leaves `detailed` as it was, so an alias that was stored in the
    short form stays short and is read back enabled. */
module StoredForm {
  import opened Wrappers
  import opened IndexMaps
  import opened ConfigTypes
  import opened Core
  import opened ShellText
  import opened CoreAdd
  import opened CoreDisable
  import opened ConfigSpec
  import opened ConfigRoundTrip

  /** Every alias has the stored form `Alias::new` gives it: explicit
      exactly when disabled or global. */
  predicate FormDerived(aliases: IndexMap<Alias>) {
    forall n :: n in aliases.values ==>
      aliases.values[n].detailed == (!aliases.values[n].enabled || aliases.values[n].global)
  }

  /** What `disable_alias` stores, as written: an enabled alias in short
      form is disabled and stays short. The stored form no longer matches
      the flags, the configuration can no longer be saved and loaded back,
      and the alias written out reads back as the enabled alias it was. */
  lemma DisableAsWrittenLosesFlag(aliases: IndexMap<Alias>, groups: IndexMap<bool>, name: string)
    requires name in aliases.values && aliases.values[name].enabled && !aliases.values[name].detailed
    ensures var after := Insert(aliases, name, aliases.values[name].(enabled := false));
      && !FormDerived(after)
      && !RoundTrippable(after, groups)
      && AliasToSpec(after.values[name]) == Simple(aliases.values[name].command)
      && SpecToAlias(AliasToSpec(after.values[name]), after.values[name].group) ==
           Ok(aliases.values[name].(global := false))
  {
    var after := Insert(aliases, name, aliases.values[name].(enabled := false));
    assert name in after.values && after.values[name].detailed == aliases.values[name].detailed;
  }

  /** The test sequence that shows it: `ll` added enabled to an empty
      configuration and then disabled is written as the short form
      `ll = "ls -la"`, and that line loads as an enabled alias. */
  lemma DisableAfterAddExample()
    ensures var added := AddedAlias("ls -la", None, true);
      && !added.detailed
      && AliasToSpec(added.(enabled := false)) == Simple("ls -la")
      && SpecToAlias(Simple("ls -la"), None) == Ok(added)
  {
  }

  /** The stored form plays no part in what the shell sees. */
  lemma ExplicitFormVisible(mid: IndexMap<Alias>, groups: IndexMap<bool>, name: string)
    requires name in mid.values
    ensures Visible(Insert(mid, name, mid.values[name].(detailed := true)), groups) == Visible(mid, groups)
  {
    var after := Insert(mid, name, mid.values[name].(detailed := true));
    assert forall n :: n in after.values ==> after.values[n].group == mid.values[n].group;
  }

  /** Disabling an alias and storing it in the explicit form restores the
      derived stored form and keeps the configuration one that can be saved
      and loaded back. */
  lemma ExplicitFormKeeps(before: IndexMap<Alias>, groups: IndexMap<bool>, name: string)
    requires name in before.values
    ensures var after := Insert(before, name, before.values[name].(enabled := false, detailed := true));
      && (FormDerived(before) ==> FormDerived(after))
      && (RoundTrippable(before, groups) ==> RoundTrippable(after, groups))
  {
  }

  /** `disable_alias` with the stored form recomputed after the flag
      changes, as the constructor derives it: the outcome and the visible
      set are those of `disable_alias`, and the disabled alias is stored in
      the explicit form. Configurations whose stored forms follow the flags,
      and configurations that can be saved and loaded back, stay so. */
  method DisableAliasRecomputed(config: Config, name: string) returns (r: OpResult)
    requires (name in config.aliases.values && config.aliases.values[name].enabled && config.aliases.values[name].group.Some?) ==>
      config.aliases.values[name].group.value in config.groups.values
    modifies config
    ensures name !in old(config.aliases.values) <==> r == Err(AliasDoesNotExist)
    ensures r.Err? ==> r == Err(AliasDoesNotExist)
    ensures name in old(config.aliases.values) && !old(config.aliases.values[name].enabled) <==> r == Ok(NoChanges)
    ensures r.Err? || r == Ok(NoChanges) ==> unchanged(config)
    ensures config.groups == old(config.groups)
    ensures r.Ok? && r.value != NoChanges ==>
      var alias := old(config.aliases.values[name]).(enabled := false, detailed := true);
      && config.aliases == Insert(old(config.aliases), name, alias)
      && r.value == (if GroupOn(config.groups, alias.group) then Command(UnaliasLine(name)) else ConfigChanged)
    ensures r.Ok? && !r.value.Command? ==> Visible(config.aliases, config.groups) == Visible(old(config.aliases), old(config.groups))
    ensures r.Ok? && r.value.Command? ==>
      Visible(config.aliases, config.groups) == Visible(old(config.aliases), old(config.groups)) - {name}
    ensures old(FormDerived(config.aliases)) ==> FormDerived(config.aliases)
    ensures old(RoundTrippable(config.aliases, config.groups)) ==> RoundTrippable(config.aliases, config.groups)
  {
    ghost var before := config.aliases;
    r := DisableAlias(config, name);
    if r.Ok? && r.value != NoChanges {
      ghost var mid := config.aliases;
      var alias := config.aliases.values[name].(detailed := true);
      config.aliases := Insert(config.aliases, name, alias);
      InsertTwice(before, name, before.values[name].(enabled := false), alias);
      ExplicitFormVisible(mid, config.groups, name);
      ExplicitFormKeeps(before, config.groups, name);
    }
  }
}
