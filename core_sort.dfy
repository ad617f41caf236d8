/** Reordering the aliases or the groups of a configuration. */
module CoreSort {
  import opened Wrappers
  import opened IndexMaps
  import opened KeyOrder
  import opened ConfigTypes
  import opened Core
  import opened CoreList

  /** The same entries listed in another order. */
  function Reordered<V>(m: IndexMap<V>, keys: seq<string>): (r: IndexMap<V>)
    requires multiset(keys) == multiset(m.keys)
    ensures r.keys == keys && r.values == m.values
  {
    DistinctPermutation(m.keys, keys);
    OrderedMap(keys, m.values)
  }

  /** The names the comparator of `sort_aliases_in_group` orders: aliases whose
      group field equals the target. */
  function Scope(aliases: IndexMap<Alias>, group: Option<string>): (scope: set<string>)
    ensures forall n :: n in scope <==> n in aliases.values && aliases.values[n].group == group
  {
    set n | n in aliases.values && aliases.values[n].group == group
  }

  /** `sort_aliases_in_group`: an unregistered named group fails; otherwise
      the alias order is re-sorted with a comparator that orders two names by
      name only when both lie in the target scope. Nothing but the order
      changes: names out of scope keep their positions, and neighbours that
      are both in scope end up ascending. */
  method SortAliasesInGroup(config: Config, group: Option<string>) returns (r: OpResult)
    modifies config
    ensures group.Some? && group.value !in old(config.groups.values) <==> r == Err(GroupDoesNotExist)
    ensures r.Err? ==> r == Err(GroupDoesNotExist)
    ensures r.Err? ==> unchanged(config)
    ensures config.groups == old(config.groups)
    ensures config.aliases.values == old(config.aliases.values)
    ensures r.Ok? ==>
      var scope := Scope(old(config.aliases), group);
      && r.value == ConfigChanged
      && config.aliases.keys == SortInScope(old(config.aliases.keys), scope)
      && multiset(config.aliases.keys) == multiset(old(config.aliases.keys))
      && |config.aliases.keys| == |old(config.aliases.keys)|
      && (forall i :: 0 <= i < |old(config.aliases.keys)| && old(config.aliases.keys[i]) !in scope ==>
            config.aliases.keys[i] == old(config.aliases.keys[i]))
      && NeighboursAscendingIn(config.aliases.keys, scope)
    ensures Visible(config.aliases, config.groups) == Visible(old(config.aliases), old(config.groups))
  {
    if group.Some? && group.value !in config.groups.values {
      return Err(GroupDoesNotExist);
    }
    var scope := Scope(config.aliases, group);
    SortInScopeCorrect(config.aliases.keys, scope);
    config.aliases := Reordered(config.aliases, SortInScope(config.aliases.keys, scope));
    r := Ok(ConfigChanged);
  }

  /** `sort_groups`: the same groups with the same flags, names ascending. */
  method SortGroups(config: Config) returns (r: OpResult)
    modifies config
    ensures config.groups.values == old(config.groups.values)
    ensures multiset(config.groups.keys) == multiset(old(config.groups.keys))
    ensures Ascending(config.groups.keys)
    ensures config.aliases == old(config.aliases)
    ensures r == Ok(ConfigChanged)
  {
    config.groups := Reordered(config.groups, SortAscending(config.groups.keys));
    r := Ok(ConfigChanged);
  }

  /** `sort_all_aliases`: the same aliases, names ascending. */
  method SortAllAliases(config: Config) returns (r: OpResult)
    modifies config
    ensures config.aliases.values == old(config.aliases.values)
    ensures multiset(config.aliases.keys) == multiset(old(config.aliases.keys))
    ensures Ascending(config.aliases.keys)
    ensures config.groups == old(config.groups)
    ensures r == Ok(ConfigChanged)
  {
    config.aliases := Reordered(config.aliases, SortAscending(config.aliases.keys));
    r := Ok(ConfigChanged);
  }

  // The sample layouts of the unit tests.

  function Plain(group: Option<string>): Alias {
    NewAlias("cmd", group, true, false)
  }

  /** Insertion sort of four names, given the result after each step. */
  lemma SortSteps(s: seq<string>, scope: set<string>, r1: seq<string>, r2: seq<string>, r3: seq<string>, r4: seq<string>)
    requires |s| == 4
    requires InsertFromBack([], s[0], scope) == r1
    requires InsertFromBack(r1, s[1], scope) == r2
    requires InsertFromBack(r2, s[2], scope) == r3
    requires InsertFromBack(r3, s[3], scope) == r4
    ensures SortInScope(s, scope) == r4
  {
    var p1, p2, p3 := s[..1], s[..2], s[..3];
    assert p1[..0] == [] && p2[..1] == p1 && p3[..2] == p2 && s[..3] == p3;
    assert SortInScope(p1, scope) == r1;
    assert SortInScope(p2, scope) == r2;
    assert SortInScope(p3, scope) == r3;
  }

  /** The first sample of the unit tests: alias3, alias1 in `group`, then
      alias4, alias2 ungrouped. */
  function SampleAliases(): (m: IndexMap<Alias>)
    ensures m.keys == ["alias3", "alias1", "alias4", "alias2"]
  {
    OrderedMap(["alias3", "alias1", "alias4", "alias2"],
      map["alias3" := Plain(Some("group")), "alias1" := Plain(Some("group")),
          "alias4" := Plain(None), "alias2" := Plain(None)])
  }

  /** Sorting `group` in the sample orders its two aliases and leaves the
      ungrouped ones as they were. */
  lemma SortInGroupExample()
    ensures SortInScope(SampleAliases().keys, Scope(SampleAliases(), Some("group"))) ==
      ["alias1", "alias3", "alias4", "alias2"]
  {
    var scope := Scope(SampleAliases(), Some("group"));
    assert "alias3" in scope && "alias1" in scope && "alias4" !in scope && "alias2" !in scope;
    SortInGroupSteps(scope);
  }

  /** The insertion steps of the group-scoped sample. */
  lemma SortInGroupSteps(scope: set<string>)
    requires "alias3" in scope && "alias1" in scope && "alias4" !in scope && "alias2" !in scope
    ensures SortInScope(["alias3", "alias1", "alias4", "alias2"], scope) == ["alias1", "alias3", "alias4", "alias2"]
  {
    StrLessAt("alias1", "alias3", 5);
    assert InsertFromBack(["alias3"], "alias1", scope) == InsertFromBack([], "alias1", scope) + ["alias3"];
    SortSteps(["alias3", "alias1", "alias4", "alias2"], scope, ["alias3"], ["alias1", "alias3"],
      ["alias1", "alias3", "alias4"], ["alias1", "alias3", "alias4", "alias2"]);
  }

  /** `Select` over four names, one name at a time. */
  lemma SelectFour(keys: seq<string>, values: map<string, Alias>, group: Option<string>)
    requires |keys| == 4 && forall k :: k in keys ==> k in values
    ensures Select(keys, values, group) ==
      (if values[keys[0]].group == group then [keys[0]] else []) +
      (if values[keys[1]].group == group then [keys[1]] else []) +
      (if values[keys[2]].group == group then [keys[2]] else []) +
      (if values[keys[3]].group == group then [keys[3]] else [])
  {
    var p1, p2, p3 := keys[..1], keys[..2], keys[..3];
    assert p1[..0] == [] && p2[..1] == p1 && p3[..2] == p2 && keys[..3] == p3;
    assert Select(p1, values, group) == (if values[keys[0]].group == group then [keys[0]] else []);
    assert Select(p2, values, group) == Select(p1, values, group) + (if values[keys[1]].group == group then [keys[1]] else []);
    assert Select(p3, values, group) == Select(p2, values, group) + (if values[keys[2]].group == group then [keys[2]] else []);
  }

  /** The members of a group in a reordering of the sample. */
  lemma SampleMembers(keys: seq<string>, group: Option<string>, expected: seq<string>)
    requires |keys| == 4 && forall k :: k in keys ==> k in SampleAliases().values
    requires NoDuplicates(keys) && forall k :: k in SampleAliases().values ==> k in keys
    requires expected == Select(keys, SampleAliases().values, group)
    ensures Members(OrderedMap(keys, SampleAliases().values), group) == expected
  {
  }

  /** The group-scoped test: afterwards the group lists alias1, alias3 and
      the ungrouped aliases are still alias4, alias2. */
  lemma SortInGroupMembers()
    ensures var sorted: IndexMap<Alias> := OrderedMap(["alias1", "alias3", "alias4", "alias2"], SampleAliases().values);
      && Members(sorted, Some("group")) == ["alias1", "alias3"]
      && Members(sorted, None) == ["alias4", "alias2"]
  {
    SortInGroupGroupMembers();
    SortInGroupUngroupedMembers();
  }

  lemma SortInGroupUngroupedMembers()
    ensures Members(OrderedMap(["alias1", "alias3", "alias4", "alias2"], SampleAliases().values), None) == ["alias4", "alias2"]
  {
    SelectFour(["alias1", "alias3", "alias4", "alias2"], SampleAliases().values, None);
    SampleMembers(["alias1", "alias3", "alias4", "alias2"], None, ["alias4", "alias2"]);
  }

  lemma SortInGroupGroupMembers()
    ensures Members(OrderedMap(["alias1", "alias3", "alias4", "alias2"], SampleAliases().values), Some("group")) == ["alias1", "alias3"]
  {
    SelectFour(["alias1", "alias3", "alias4", "alias2"], SampleAliases().values, Some("group"));
    SampleMembers(["alias1", "alias3", "alias4", "alias2"], Some("group"), ["alias1", "alias3"]);
  }

  /** Sorting the ungrouped aliases of the sample orders them and leaves the
      group's aliases where they were. */
  lemma SortUngroupedExample()
    ensures SortInScope(SampleAliases().keys, Scope(SampleAliases(), None)) ==
      ["alias3", "alias1", "alias2", "alias4"]
  {
    var scope := Scope(SampleAliases(), None);
    assert "alias3" !in scope && "alias1" !in scope && "alias4" in scope && "alias2" in scope;
    SortUngroupedSteps(scope);
  }

  /** The insertion steps of the ungrouped sample. */
  lemma SortUngroupedSteps(scope: set<string>)
    requires "alias3" !in scope && "alias1" !in scope && "alias4" in scope && "alias2" in scope
    ensures SortInScope(["alias3", "alias1", "alias4", "alias2"], scope) == ["alias3", "alias1", "alias2", "alias4"]
  {
    StrLessAt("alias2", "alias4", 5);
    assert InsertFromBack(["alias3", "alias1", "alias4"], "alias2", scope) ==
      InsertFromBack(["alias3", "alias1"], "alias2", scope) + ["alias4"];
    SortSteps(["alias3", "alias1", "alias4", "alias2"], scope, ["alias3"], ["alias3", "alias1"],
      ["alias3", "alias1", "alias4"], ["alias3", "alias1", "alias2", "alias4"]);
  }

  /** The ungrouped test: afterwards the group still lists alias3, alias1 and
      the ungrouped aliases are alias2, alias4. */
  lemma SortUngroupedMembers()
    ensures var sorted: IndexMap<Alias> := OrderedMap(["alias3", "alias1", "alias2", "alias4"], SampleAliases().values);
      && Members(sorted, Some("group")) == ["alias3", "alias1"]
      && Members(sorted, None) == ["alias2", "alias4"]
  {
    SortUngroupedGroupMembers();
    SortUngroupedUngroupedMembers();
  }

  lemma SortUngroupedUngroupedMembers()
    ensures Members(OrderedMap(["alias3", "alias1", "alias2", "alias4"], SampleAliases().values), None) == ["alias2", "alias4"]
  {
    SelectFour(["alias3", "alias1", "alias2", "alias4"], SampleAliases().values, None);
    SampleMembers(["alias3", "alias1", "alias2", "alias4"], None, ["alias2", "alias4"]);
  }

  lemma SortUngroupedGroupMembers()
    ensures Members(OrderedMap(["alias3", "alias1", "alias2", "alias4"], SampleAliases().values), Some("group")) == ["alias3", "alias1"]
  {
    SelectFour(["alias3", "alias1", "alias2", "alias4"], SampleAliases().values, Some("group"));
    SampleMembers(["alias3", "alias1", "alias2", "alias4"], Some("group"), ["alias3", "alias1"]);
  }

  /** The group test of `sort_groups`: beta, alpha sorts to alpha, beta, the
      only ascending order of those two names. */
  lemma SortGroupsExample()
    ensures SortAscending(["beta", "alpha"]) == ["alpha", "beta"]
  {
    var r := SortAscending(["beta", "alpha"]);
    StrLessAt("alpha", "beta", 0);
    assert Ascending(["alpha", "beta"]);
    assert multiset(["alpha", "beta"]) == multiset(["beta", "alpha"]);
    AscendingUnique(r, ["alpha", "beta"]);
  }
}
