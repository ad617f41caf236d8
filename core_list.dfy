/** Listing: the aliases of one group, of every group, and the enabled or
    disabled ones grouped. */
module CoreList {
  import opened Wrappers
  import opened IndexMaps
  import opened ConfigTypes
  import opened Core

  /** A group, or the ungrouped aliases. */
  datatype GroupId = Ungrouped | Named(name: string)

  /** The `group` field an alias has when it belongs to `id`. */
  function GroupField(id: GroupId): Option<string> {
    if id.Ungrouped? then None else Some(id.name)
  }

  /** The bucket of `get_all_groups` an alias with group field `g` lands in. */
  function BucketOf(g: Option<string>): (id: GroupId)
    ensures GroupField(id) == g
  {
    if g.None? then Ungrouped else Named(g.value)
  }

  /** Each bucket is the bucket of its own group field: with `BucketOf`'s
      contract, the two are inverse bijections. */
  lemma BucketOfGroupField(id: GroupId)
    ensures BucketOf(GroupField(id)) == id
  {
  }

  /** Every element of `r` lies in `keys`, and `r` lists them in the order of
      `keys`. */
  predicate InKeyOrder(r: seq<string>, keys: seq<string>) {
    && (forall x :: x in r ==> x in keys)
    && (forall i, j :: 0 <= i < j < |r| && r[i] in keys && r[j] in keys ==>
          IndexOf(keys, r[i]) < IndexOf(keys, r[j]))
  }

  /** The names among `keys` whose alias has group field `group`, keeping the
      order of `keys`. */
  function Select(keys: seq<string>, values: map<string, Alias>, group: Option<string>): (r: seq<string>)
    requires forall k :: k in keys ==> k in values
    ensures forall n :: n in r ==> n in keys
    decreases |keys|
  {
    if keys == [] then []
    else
      var last := keys[|keys| - 1];
      Select(keys[..|keys| - 1], values, group) + (if values[last].group == group then [last] else [])
  }

  /** `Select` on one more key. */
  lemma SelectStep(keys: seq<string>, i: nat, values: map<string, Alias>, group: Option<string>)
    requires i < |keys| && forall k :: k in keys ==> k in values
    ensures Select(keys[..i + 1], values, group) ==
      Select(keys[..i], values, group) + (if values[keys[i]].group == group then [keys[i]] else [])
  {
    assert keys[..i + 1][..i] == keys[..i];
  }

  /** The members of a group (or the ungrouped aliases, for `None`):
      exactly the aliases whose group field is `group`, once each, in alias
      order. */
  function Members(aliases: IndexMap<Alias>, group: Option<string>): (r: seq<string>)
    ensures forall n :: n in r <==> n in aliases.values && aliases.values[n].group == group
    ensures NoDuplicates(r)
    ensures InKeyOrder(r, aliases.keys)
  {
    SelectFacts(aliases.keys, aliases.values, group);
    Select(aliases.keys, aliases.values, group)
  }

  /** `r` is `s` with some elements left out, the rest in their order. */
  predicate Subsequence(r: seq<string>, s: seq<string>)
    decreases |s|
  {
    || r == []
    || (s != [] && Subsequence(r, s[..|s| - 1]))
    || (s != [] && r[|r| - 1] == s[|s| - 1] && Subsequence(r[..|r| - 1], s[..|s| - 1]))
  }

  /** The names among `names` whose alias has `enabled == flag`, keeping their
      order: the in-place `retain` on a bucket. */
  function WithEnabled(names: seq<string>, aliases: IndexMap<Alias>, flag: bool): (r: seq<string>)
    requires forall n :: n in names ==> n in aliases.values
    ensures forall n :: n in r <==> n in names && aliases.values[n].enabled == flag
    ensures Subsequence(r, names)
    decreases |names|
  {
    if names == [] then []
    else
      var last := names[|names| - 1];
      var kept := WithEnabled(names[..|names| - 1], aliases, flag);
      if aliases.values[last].enabled == flag then
        assert (kept + [last])[..|kept|] == kept;
        kept + [last]
      else kept
  }

  lemma {:induction false} IndexOfAppend(s: seq<string>, x: string, y: string)
    requires y in s
    ensures IndexOf(s + [x], y) == IndexOf(s, y)
    decreases |s|
  {
    if s[0] != y {
      assert (s + [x])[1..] == s[1..] + [x];
      IndexOfAppend(s[1..], x, y);
    }
  }

  lemma {:induction false} IndexOfLast(s: seq<string>, x: string)
    requires x !in s
    ensures IndexOf(s + [x], x) == |s|
    decreases |s|
  {
    if s != [] {
      assert (s + [x])[1..] == s[1..] + [x];
      IndexOfLast(s[1..], x);
    }
  }

  /** Appending a name not yet present to a sequence in key order keeps it in
      the order of the extended keys. */
  lemma ExtendKeyOrder(r: seq<string>, p: seq<string>, x: string)
    requires InKeyOrder(r, p) && x !in p
    ensures InKeyOrder(r, p + [x]) && InKeyOrder(r + [x], p + [x])
  {
    forall y | y in r ensures IndexOf(p + [x], y) == IndexOf(p, y) < |p| {
      IndexOfAppend(p, x, y);
    }
    IndexOfLast(p, x);
    var r' := r + [x];
    forall i, j | 0 <= i < j < |r'| && r'[i] in p + [x] && r'[j] in p + [x]
      ensures IndexOf(p + [x], r'[i]) < IndexOf(p + [x], r'[j])
    {
      if j < |r| {
        assert r'[i] == r[i] && r'[j] == r[j];
      } else {
        assert r'[i] == r[i] && r'[j] == x;
      }
    }
  }

  lemma {:induction false} SelectFacts(keys: seq<string>, values: map<string, Alias>, group: Option<string>)
    requires forall k :: k in keys ==> k in values
    requires NoDuplicates(keys)
    ensures var r := Select(keys, values, group);
      && (forall n :: n in r <==> n in keys && values[n].group == group)
      && NoDuplicates(r)
      && InKeyOrder(r, keys)
    decreases |keys|
  {
    if keys != [] {
      var p := keys[..|keys| - 1];
      var x := keys[|keys| - 1];
      assert keys == p + [x];
      assert NoDuplicates(p) && x !in p;
      SelectFacts(p, values, group);
      ExtendKeyOrder(Select(p, values, group), p, x);
    }
  }

  /** `get_single_group`: an unregistered named group is an error; otherwise
      the members in alias order. */
  function GetSingleGroup(config: Config, id: GroupId): (r: Result<seq<string>, Failure>)
    reads config
    ensures r.Err? <==> id.Named? && id.name !in config.groups.values
    ensures r.Err? ==> r.error == GroupDoesNotExist
    ensures r.Ok? ==> forall n :: n in r.value <==>
      n in config.aliases.values && config.aliases.values[n].group == GroupField(id)
    ensures r.Ok? ==> NoDuplicates(r.value) && InKeyOrder(r.value, config.aliases.keys)
  {
    if id.Named? && id.name !in config.groups.values then Err(GroupDoesNotExist)
    else Ok(Members(config.aliases, GroupField(id)))
  }

  /** `get_all_groups`: one bucket per registered group plus `Ungrouped`, and
      every alias in the bucket of its own group, in alias order. The source
      panics on an alias whose group is not registered; here that is
      excluded by the precondition. */
  method GetAllGroups(config: Config) returns (buckets: map<GroupId, seq<string>>)
    requires config.GroupsRegistered()
    ensures forall id :: id in buckets <==> id.Ungrouped? || id.name in config.groups.values
    ensures forall id :: id in buckets ==> buckets[id] == Members(config.aliases, GroupField(id))
    ensures forall n :: n in config.aliases.values ==>
      var id := BucketOf(config.aliases.values[n].group); id in buckets && n in buckets[id]
    ensures forall id, n :: id in buckets && n in buckets[id] ==>
      n in config.aliases.values && BucketOf(config.aliases.values[n].group) == id
  {
    buckets := map[Ungrouped := []];
    var groupKeys := config.groups.keys;
    var gi := 0;
    while gi < |groupKeys|
      invariant 0 <= gi <= |groupKeys|
      invariant forall id :: id in buckets <==> id.Ungrouped? || id.name in groupKeys[..gi]
      invariant forall id :: id in buckets ==> buckets[id] == []
    {
      assert groupKeys[..gi + 1] == groupKeys[..gi] + [groupKeys[gi]];
      buckets := buckets[Named(groupKeys[gi]) := []];
      gi := gi + 1;
    }
    assert groupKeys[..gi] == groupKeys;
    var keys := config.aliases.keys;
    var values := config.aliases.values;
    var i := 0;
    while i < |keys|
      invariant 0 <= i <= |keys|
      invariant forall id :: id in buckets <==> id.Ungrouped? || id.name in config.groups.values
      invariant forall id :: id in buckets ==> buckets[id] == Select(keys[..i], values, GroupField(id))
    {
      var name := keys[i];
      var key := BucketOf(values[name].group);
      forall id | id in buckets
        ensures Select(keys[..i + 1], values, GroupField(id)) ==
          Select(keys[..i], values, GroupField(id)) + (if id == key then [name] else [])
      {
        SelectStep(keys, i, values, GroupField(id));
      }
      buckets := buckets[key := buckets[key] + [name]];
      i := i + 1;
    }
    assert keys[..i] == keys;
    BucketsPlaceEachAlias(config, buckets);
  }

  /** Buckets that hold each group's members put every alias in exactly the
      bucket of its own group. */
  lemma BucketsPlaceEachAlias(config: Config, buckets: map<GroupId, seq<string>>)
    requires config.GroupsRegistered()
    requires forall id :: id in buckets <==> id.Ungrouped? || id.name in config.groups.values
    requires forall id :: id in buckets ==> buckets[id] == Members(config.aliases, GroupField(id))
    ensures forall n :: n in config.aliases.values ==>
      var id := BucketOf(config.aliases.values[n].group); id in buckets && n in buckets[id]
    ensures forall id, n :: id in buckets && n in buckets[id] ==>
      n in config.aliases.values && BucketOf(config.aliases.values[n].group) == id
  {
    forall id, n | id in buckets && n in buckets[id]
      ensures n in config.aliases.values && BucketOf(config.aliases.values[n].group) == id
    {
      assert n in Members(config.aliases, GroupField(id));
    }
  }

  /** `get_disabled_aliases_grouped`: disabled named groups whole, no enabled
      named group, and the ungrouped aliases that are disabled. */
  method GetDisabledAliasesGrouped(config: Config) returns (buckets: map<GroupId, seq<string>>)
    requires config.GroupsRegistered()
    ensures forall id :: id in buckets <==>
      id.Ungrouped? || (id.name in config.groups.values && !config.groups.values[id.name])
    ensures Ungrouped in buckets && buckets[Ungrouped] == WithEnabled(Members(config.aliases, None), config.aliases, false)
    ensures forall id :: id in buckets && id.Named? ==> buckets[id] == Members(config.aliases, Some(id.name))
  {
    var all := GetAllGroups(config);
    buckets := map id | id in all && (id.Ungrouped? || !GroupEnabled(config.groups, id.name)) ::
      if id.Ungrouped? then WithEnabled(all[id], config.aliases, false) else all[id];
  }

  /** `get_enabled_aliases_grouped`: no disabled named group, and in every
      remaining bucket only the enabled aliases. */
  method GetEnabledAliasesGrouped(config: Config) returns (buckets: map<GroupId, seq<string>>)
    requires config.GroupsRegistered()
    ensures forall id :: id in buckets <==>
      id.Ungrouped? || (id.name in config.groups.values && config.groups.values[id.name])
    ensures forall id :: id in buckets ==>
      buckets[id] == WithEnabled(Members(config.aliases, GroupField(id)), config.aliases, true)
  {
    var all := GetAllGroups(config);
    buckets := map id | id in all && (id.Ungrouped? || GroupEnabled(config.groups, id.name)) ::
      WithEnabled(all[id], config.aliases, true);
  }

  /** Every enabled-listing entry is visible to the shell, and every visible
      alias is listed: the enabled listing is the visible set. */
  lemma EnabledListingIsVisible(config: Config, buckets: map<GroupId, seq<string>>)
    requires config.GroupsRegistered()
    requires forall id :: id in buckets <==>
      id.Ungrouped? || (id.name in config.groups.values && config.groups.values[id.name])
    requires forall id :: id in buckets ==>
      buckets[id] == WithEnabled(Members(config.aliases, GroupField(id)), config.aliases, true)
    ensures forall n :: n in Visible(config.aliases, config.groups) <==>
      exists id :: id in buckets && n in buckets[id]
  {
    forall n | n in Visible(config.aliases, config.groups)
      ensures exists id :: id in buckets && n in buckets[id]
    {
      var id := BucketOf(config.aliases.values[n].group);
      assert n in buckets[id];
    }
  }
}
