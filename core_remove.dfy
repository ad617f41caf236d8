/** Removing aliases and groups. */
module CoreRemove {
  import opened Wrappers
  import opened IndexMaps
  import opened ConfigTypes
  import opened Core
  import opened ShellText
  import opened CoreAdd

  /** `remove_alias`: a missing alias fails and changes nothing; otherwise the
      entry goes, the rest keep their order, and the shell forgets the name. */
  method RemoveAlias(config: Config, name: string) returns (r: OpResult)
    modifies config
    ensures name !in old(config.aliases.values) <==> r == Err(AliasDoesNotExist)
    ensures r.Err? ==> unchanged(config)
    ensures r.Ok? ==> r.value == Command(UnaliasLine(name))
    ensures config.aliases == ShiftRemove(old(config.aliases), name)
    ensures config.groups == old(config.groups)
    ensures old(config.GroupsRegistered()) ==> config.GroupsRegistered()
  {
    if name !in config.aliases.values {
      return Err(AliasDoesNotExist);
    }
    config.aliases := ShiftRemove(config.aliases, name);
    r := Ok(Command(UnaliasLine(name)));
  }

  /** `remove_all_aliases`: no alias is left, and the shell drops them all. */
  method RemoveAllAliases(config: Config) returns (r: OpResult)
    modifies config
    ensures config.aliases.keys == [] && config.aliases.values == map[]
    ensures config.groups == old(config.groups)
    ensures r == Ok(Command("unalias -a"))
  {
    config.aliases := Empty();
    r := Ok(Command("unalias -a"));
  }

  /** `remove_all_groups`: no group is left; aliases keep their group fields. */
  method RemoveAllGroups(config: Config) returns (r: OpResult)
    modifies config
    ensures config.groups.keys == [] && config.groups.values == map[]
    ensures config.aliases == old(config.aliases)
    ensures r == Ok(ConfigChanged)
  {
    config.groups := Empty();
    r := Ok(ConfigChanged);
  }

  /** `remove_all`: both maps end up empty and the shell drops every alias. */
  method RemoveAll(config: Config) returns (r: OpResult)
    modifies config
    ensures config.aliases.keys == [] && config.aliases.values == map[]
    ensures config.groups.keys == [] && config.groups.values == map[]
    ensures config.GroupsRegistered() && Visible(config.aliases, config.groups) == {}
    ensures r == Ok(Command("unalias -a"))
  {
    var _ := RemoveAllGroups(config);
    r := RemoveAllAliases(config);
  }

  /** The map left after removing `names` one after the other. */
  function RemoveNames(m: IndexMap<Alias>, names: seq<string>): IndexMap<Alias>
    decreases |names|
  {
    if names == [] then m else ShiftRemove(RemoveNames(m, names[..|names| - 1]), names[|names| - 1])
  }

  /** Each name is still present when its turn to be removed comes. */
  predicate AllPresent(m: IndexMap<Alias>, names: seq<string>)
    decreases |names|
  {
    names == [] ||
      (AllPresent(m, names[..|names| - 1]) && names[|names| - 1] in RemoveNames(m, names[..|names| - 1]).values)
  }

  /** The `unalias` statement of every name, in order. */
  function UnaliasLines(names: seq<string>): seq<string> {
    seq(|names|, i requires 0 <= i < |names| => UnaliasLine(names[i]))
  }

  lemma UnaliasLinesExtend(names: seq<string>, i: nat)
    requires i < |names|
    ensures UnaliasLines(names[..i + 1]) == UnaliasLines(names[..i]) + [UnaliasLine(names[i])]
    ensures Terminated(UnaliasLines(names[..i + 1])) == Terminated(UnaliasLines(names[..i])) + UnaliasLine(names[i]) + "\n"
  {
    var a := UnaliasLines(names[..i + 1]);
    var b := UnaliasLines(names[..i]) + [UnaliasLine(names[i])];
    assert |a| == |b|;
    forall k | 0 <= k < |a| ensures a[k] == b[k] {
      if k < i {
        assert names[..i + 1][k] == names[..i][k];
      }
    }
  }

  /** The state and the text after one more removal in the loop of
      `remove_aliases`. */
  lemma RemovalExtend(m: IndexMap<Alias>, names: seq<string>, i: nat)
    requires i < |names|
    ensures RemoveNames(m, names[..i + 1]) == ShiftRemove(RemoveNames(m, names[..i]), names[i])
    ensures AllPresent(m, names[..i + 1]) <==>
      AllPresent(m, names[..i]) && names[i] in RemoveNames(m, names[..i]).values
  {
    assert names[..i + 1][..i] == names[..i];
  }

  /** The text `remove_aliases` assembles trims to its statements joined by
      single newlines. */
  lemma UnaliasText(names: seq<string>)
    ensures Trim(Terminated(UnaliasLines(names))) == JoinLines(UnaliasLines(names))
  {
    forall k | 0 <= k < |names| ensures SolidLine(UnaliasLines(names)[k]) {
      UnaliasLineSolid(names[k]);
    }
    TrimTerminated(UnaliasLines(names));
  }

  /** Taking one more key out of a map after a set of them. */
  lemma MinusOneMore(v: map<string, Alias>, s: set<string>, x: string)
    ensures v - s - {x} == v - (s + {x})
  {
  }

  /** Removing names one by one deletes exactly those names. */
  lemma {:induction false} RemoveNamesValues(m: IndexMap<Alias>, names: seq<string>)
    ensures RemoveNames(m, names).values == m.values - (set n | n in names)
    decreases |names|
  {
    if names != [] {
      var p := names[..|names| - 1];
      var x := names[|names| - 1];
      RemoveNamesValues(m, p);
      assert RemoveNames(m, names).values == RemoveNames(m, p).values - {x};
      assert (set n | n in names) == (set n | n in p) + {x} by {
        assert names == p + [x];
      }
      MinusOneMore(m.values, (set n | n in p), x);
    }
  }

  /** Every removal succeeds exactly when the names are distinct aliases. */
  lemma {:induction false} AllPresentIff(m: IndexMap<Alias>, names: seq<string>)
    ensures AllPresent(m, names) <==> NoDuplicates(names) && forall n :: n in names ==> n in m.values
    decreases |names|
  {
    if names != [] {
      var p := names[..|names| - 1];
      var x := names[|names| - 1];
      assert names == p + [x];
      AllPresentIff(m, p);
      RemoveNamesValues(m, p);
      if NoDuplicates(names) {
        assert NoDuplicates(p) && x !in p;
      }
    }
  }

  /** A run of successful removals succeeds at each of its positions. */
  lemma {:induction false} AllPresentAt(m: IndexMap<Alias>, names: seq<string>, k: nat)
    requires AllPresent(m, names) && k < |names|
    ensures names[k] in RemoveNames(m, names[..k]).values
    decreases |names|
  {
    var p := names[..|names| - 1];
    assert AllPresent(m, p) && names[|names| - 1] in RemoveNames(m, p).values;
    if k < |names| - 1 {
      assert p[..k] == names[..k] && p[k] == names[k];
      AllPresentAt(m, p, k);
    } else {
      assert names[..k] == p;
    }
  }

  /** Removal stopped at position `k`: every earlier name was removed, the
      name at `k` was missing, and `current` is what the earlier removals left. */
  predicate StoppedAt(m: IndexMap<Alias>, current: IndexMap<Alias>, names: seq<string>, k: nat)
    requires k < |names|
  {
    && AllPresent(m, names[..k])
    && names[k] !in RemoveNames(m, names[..k]).values
    && current == RemoveNames(m, names[..k])
  }

  /** A name missing after the earlier removals stops the run there, and
      the whole run cannot succeed. */
  lemma StoppedHere(m: IndexMap<Alias>, names: seq<string>, k: nat)
    requires k < |names| && AllPresent(m, names[..k]) && names[k] !in RemoveNames(m, names[..k]).values
    ensures StoppedAt(m, RemoveNames(m, names[..k]), names, k)
    ensures !AllPresent(m, names)
  {
    if AllPresent(m, names) {
      AllPresentAt(m, names, k);
    }
  }

  /** `remove_aliases`: the names are removed in order. If all are present the
      shell gets their `unalias` statements, one per line; removal stops at the
      first missing name, and the removals before it stay done. */
  method RemoveAliases(config: Config, names: seq<string>) returns (r: OpResult)
    modifies config
    ensures config.groups == old(config.groups)
    ensures r.Ok? <==> AllPresent(old(config.aliases), names)
    ensures r.Ok? ==>
      && config.aliases == RemoveNames(old(config.aliases), names)
      && r.value == Command(JoinLines(UnaliasLines(names)))
    ensures r.Err? ==> r.error == AliasDoesNotExist
    ensures r.Err? ==> exists k :: 0 <= k < |names| && StoppedAt(old(config.aliases), config.aliases, names, k)
    ensures old(config.GroupsRegistered()) ==> config.GroupsRegistered()
  {
    var original := config.aliases;
    var text := "";
    var i := 0;
    while i < |names|
      invariant 0 <= i <= |names|
      invariant config.groups == old(config.groups)
      invariant AllPresent(original, names[..i])
      invariant config.aliases == RemoveNames(original, names[..i])
      invariant text == Terminated(UnaliasLines(names[..i]))
      invariant old(config.GroupsRegistered()) ==> config.GroupsRegistered()
    {
      var step := RemoveAlias(config, names[i]);
      if step.Err? {
        StoppedHere(original, names, i);
        return Err(AliasDoesNotExist);
      }
      RemovalExtend(original, names, i);
      UnaliasLinesExtend(names, i);
      text := text + UnaliasLine(names[i]) + "\n";
      i := i + 1;
    }
    assert names[..i] == names;
    UnaliasText(names);
    r := Ok(Command(Trim(text)));
  }

  /** `remove_group`: a missing group fails; otherwise only the group entry
      goes, its members keep naming it. Removing an enabled group hides
      nothing from the shell. */
  method RemoveGroup(config: Config, name: string) returns (r: OpResult)
    modifies config
    ensures name !in old(config.groups.values) <==> r == Err(GroupDoesNotExist)
    ensures r.Err? ==> unchanged(config)
    ensures r.Ok? ==> r.value == ConfigChanged
    ensures config.groups == ShiftRemove(old(config.groups), name)
    ensures config.aliases == old(config.aliases)
    ensures old(GroupEnabled(config.groups, name)) ==>
      Visible(config.aliases, config.groups) == Visible(old(config.aliases), old(config.groups))
  {
    if name !in config.groups.values {
      return Err(GroupDoesNotExist);
    }
    config.groups := ShiftRemove(config.groups, name);
    r := Ok(ConfigChanged);
  }

  /** Adding an alias under a fresh name to a registered group (or none) and
      then removing it restores the configuration exactly, order included. */
  method AddThenRemoveRestores(config: Config, name: string, command: string, group: Option<string>, enabled: bool)
    modifies config
    requires name !in config.aliases.values
    requires group.None? || group.value in config.groups.values
    ensures config.aliases == old(config.aliases) && config.groups == old(config.groups)
  {
    var before := config.aliases;
    var added := AddAliasToConfig(config, name, command, group, enabled);
    InsertThenShiftRemove(before, name, AddedAlias(command, group, enabled));
    var removed := RemoveAlias(config, name);
  }
}
