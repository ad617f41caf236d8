/** `Failure` and `Outcome`, the results every core operation returns, and
    what an outcome obliges its caller to do. */
module Core {
  import opened Wrappers
  import opened IndexMaps
  import opened ConfigTypes

  datatype Failure =
    | InvalidAliasName
    | AliasDoesNotExist
    | GroupDoesNotExist
    | AliasAlreadyExists
    | GroupAlreadyExists
    | UnexpectedBehavior

  datatype Outcome =
      /** Save the configuration and hand `text` to the shell. */
    | Command(text: string)
      /** Save the configuration; the shell needs nothing. */
    | ConfigChanged
      /** Nothing was modified. */
    | NoChanges

  type OpResult = Result<Outcome, Failure>

  /** Whether the caller has to write the configuration back. */
  function MustSave(o: Outcome): bool {
    !o.NoChanges?
  }

  /** The text the caller has to send to the shell, if any. */
  function ShellUpdate(o: Outcome): Option<string> {
    match o
    case Command(t) => Some(t)
    case _ => None
  }

  /** An outcome that reaches the shell always saves too; the two others never
      reach it. */
  lemma ShellUpdateImpliesSave(o: Outcome)
    ensures ShellUpdate(o).Some? ==> MustSave(o)
    ensures o.ConfigChanged? ==> MustSave(o) && ShellUpdate(o).None?
    ensures o.NoChanges? ==> !MustSave(o) && ShellUpdate(o).None?
  {
  }

  /** The alias names a live shell knows: enabled aliases that are ungrouped
      or whose group is not disabled. An outcome other than `Command` must
      leave this set as it was. */
  function Visible(aliases: IndexMap<Alias>, groups: IndexMap<bool>): (names: set<string>)
    ensures forall n :: n in names <==>
      n in aliases.values && aliases.values[n].enabled && GroupOn(groups, aliases.values[n].group)
  {
    set n | n in aliases.values && aliases.values[n].enabled && GroupOn(groups, aliases.values[n].group)
  }

  /** Ungrouped, or in a group that is not disabled. */
  predicate GroupOn(groups: IndexMap<bool>, group: Option<string>) {
    group.None? || GroupEnabled(groups, group.value)
  }

  /** `config.groups.get(g).unwrap_or(true)`: an unregistered group counts as
      enabled. */
  function GroupEnabled(groups: IndexMap<bool>, g: string): (on: bool)
    ensures on <==> g !in groups.values || groups.values[g]
  {
    match Get(groups, g)
    case Some(flag) => flag
    case None => true
  }
}
