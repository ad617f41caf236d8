/** The domain: an alias, and the configuration holding the aliases by name
    and the groups by name with their enabled flag. */
module ConfigTypes {
  import opened Wrappers
  import opened IndexMaps

  /** One alias. `group` names a group of the configuration (a name, not an
      owning reference); `detailed` records whether the file stores the alias
      in its explicit form rather than as a bare command string. */
  datatype Alias = Alias(command: string, group: Option<string>, enabled: bool, detailed: bool, global: bool)

  /** `Alias::new`: the explicit form is needed exactly when the alias is
      disabled or global. */
  function NewAlias(command: string, group: Option<string>, enabled: bool, global: bool): (a: Alias)
    ensures a.command == command && a.group == group
    ensures a.enabled == enabled && a.global == global
    ensures a.detailed <==> !enabled || global
  {
    Alias(command, group, enabled, !enabled || global, global)
  }

  /** The constructor's unit tests: an enabled plain alias uses the short form,
      a disabled one the explicit form, global or not. */
  lemma NewAliasExamples()
    ensures NewAlias("cmd", None, true, false) == Alias("cmd", None, true, false, false)
    ensures NewAlias("cmd", None, false, false) == Alias("cmd", None, false, true, false)
    ensures NewAlias("cmd", None, false, true) == Alias("cmd", None, false, true, true)
  {
  }

  /** The test named `global_alias_must_be_detailed` passes `enabled = false`
      and expects an enabled alias back; the constructor keeps the flag it is
      given, so that expectation does not hold. */
  lemma GlobalAliasTestExpectsWrongFlag()
    ensures NewAlias("cmd", None, false, true) != Alias("cmd", None, true, true, true)
  {
  }

  /** The configuration, updated in place by every operation. */
  class Config {
    var aliases: IndexMap<Alias>
    var groups: IndexMap<bool>

    /** `Config::new`: no aliases and no groups. */
    constructor ()
      ensures aliases.keys == [] && aliases.values == map[]
      ensures groups.keys == [] && groups.values == map[]
    {
      aliases := Empty();
      groups := Empty();
    }

    /** Every group an alias names is a registered group. Listing relies on
        it and only the interactive layer may break it, for the span of one
        recovery. */
    predicate GroupsRegistered()
      reads this
    {
      forall n :: n in aliases.values && aliases.values[n].group.Some? ==>
        aliases.values[n].group.value in groups.values
    }
  }
}
