/** The file form of a configuration: one flat, ordered table of entries.
    A top-level entry is an alias in its short form (a bare command), an
    alias in its explicit form (command and enabled flag), or a group table
    that holds its own enabled flag and its members' entries. Only this entry
    level is modelled; the TOML text it is written as is not. */
module ConfigSpec {
  import opened Wrappers
  import opened IndexMaps
  import opened ConfigTypes
  import opened CoreList

  /** The explicit form of an alias. */
  datatype AliasSpec = AliasSpec(command: string, enabled: bool)

  /** One entry: `name = "command"`, `name = { command = …, enabled = … }`,
      or a `[name]` group table. */
  datatype AliasSpecTypes =
    | Simple(command: string)
    | Detailed(spec: AliasSpec)
    | Group(group: GroupSpec)

  /** A group table: its flag, then its members' entries in order. */
  datatype GroupSpec = GroupSpec(enabled: bool, aliases: IndexMap<AliasSpecTypes>)

  /** The whole file. */
  datatype ConfigSpec = ConfigSpec(entries: IndexMap<AliasSpecTypes>)

  /** Decoding stops on a group table inside a group table; the source
      panics there. */
  datatype SpecError = NestedGroupsUnsupported

  /** The configuration a decoding builds up. */
  datatype Decoded = Decoded(aliases: IndexMap<Alias>, groups: IndexMap<bool>)

  // ---------------------------------------------------------------------
  // Encoding

  /** `convert_alias_to_spec`: the short form exactly for an alias that is
      not detailed; the explicit form carries the enabled flag. */
  function AliasToSpec(a: Alias): (s: AliasSpecTypes)
    ensures !s.Group?
    ensures s.Simple? <==> !a.detailed
    ensures s.Simple? ==> s.command == a.command
    ensures s.Detailed? ==> s.spec == AliasSpec(a.command, a.enabled)
  {
    if !a.detailed then Simple(a.command) else Detailed(AliasSpec(a.command, a.enabled))
  }

  /** The entries of the aliases `names`, in the order of `names`. */
  function EntriesFor(names: seq<string>, aliases: IndexMap<Alias>): (m: IndexMap<AliasSpecTypes>)
    requires forall n :: n in names ==> n in aliases.values
    ensures forall n :: n in m.values <==> n in names
    ensures forall n :: n in m.values ==> m.values[n] == AliasToSpec(aliases.values[n])
    ensures NoDuplicates(names) ==> m.keys == names
    decreases |names|
  {
    if names == [] then Empty()
    else
      var p := names[..|names| - 1];
      var last := names[|names| - 1];
      assert names == p + [last];
      assert NoDuplicates(names) ==> NoDuplicates(p) && last !in p;
      Insert(EntriesFor(p, aliases), last, AliasToSpec(aliases.values[last]))
  }

  /** `convert_group_to_spec`: a group table holding exactly the group's
      members, in alias order. */
  function GroupToSpec(name: string, enabled: bool, aliases: IndexMap<Alias>): (s: AliasSpecTypes)
    ensures s.Group? && s.group.enabled == enabled
    ensures s.group.aliases.keys == Members(aliases, Some(name))
    ensures forall n :: n in s.group.aliases.values ==>
      n in aliases.values && aliases.values[n].group == Some(name) &&
      s.group.aliases.values[n] == AliasToSpec(aliases.values[n])
  {
    Group(GroupSpec(enabled, EntriesFor(Members(aliases, Some(name)), aliases)))
  }

  /** The alias is written at the top level: it has no group, or its group
      is not registered. */
  predicate TopLevel(a: Alias, groups: IndexMap<bool>) {
    a.group.None? || a.group.value !in groups.values
  }

  function SelectTop(keys: seq<string>, values: map<string, Alias>, groups: IndexMap<bool>): (r: seq<string>)
    requires forall k :: k in keys ==> k in values
    ensures forall n :: n in r ==> n in keys
    decreases |keys|
  {
    if keys == [] then []
    else
      var last := keys[|keys| - 1];
      SelectTop(keys[..|keys| - 1], values, groups) + (if TopLevel(values[last], groups) then [last] else [])
  }

  lemma {:induction false} SelectTopFacts(keys: seq<string>, values: map<string, Alias>, groups: IndexMap<bool>)
    requires forall k :: k in keys ==> k in values
    requires NoDuplicates(keys)
    ensures var r := SelectTop(keys, values, groups);
      && (forall n :: n in r <==> n in keys && TopLevel(values[n], groups))
      && NoDuplicates(r)
      && InKeyOrder(r, keys)
    decreases |keys|
  {
    if keys != [] {
      var p := keys[..|keys| - 1];
      var x := keys[|keys| - 1];
      assert keys == p + [x];
      assert NoDuplicates(p) && x !in p;
      SelectTopFacts(p, values, groups);
      var r := SelectTop(p, values, groups);
      ExtendKeyOrder(r, p, x);
      assert x !in r;
      if TopLevel(values[x], groups) {
        assert SelectTop(keys, values, groups) == r + [x];
      } else {
        assert SelectTop(keys, values, groups) == r;
      }
    }
  }

  /** The aliases written at the top level, once each, in alias order. */
  function TopNames(aliases: IndexMap<Alias>, groups: IndexMap<bool>): (r: seq<string>)
    ensures forall n :: n in r <==> n in aliases.values && TopLevel(aliases.values[n], groups)
    ensures NoDuplicates(r)
    ensures InKeyOrder(r, aliases.keys)
  {
    SelectTopFacts(aliases.keys, aliases.values, groups);
    SelectTop(aliases.keys, aliases.values, groups)
  }

  /** The entries after the group tables of `gs` are inserted, one after
      the other, into `base`. */
  function AddGroupEntries(base: IndexMap<AliasSpecTypes>, gs: seq<string>, groups: IndexMap<bool>,
                           aliases: IndexMap<Alias>): IndexMap<AliasSpecTypes>
    requires forall g :: g in gs ==> g in groups.values
    decreases |gs|
  {
    if gs == [] then base
    else
      var last := gs[|gs| - 1];
      Insert(AddGroupEntries(base, gs[..|gs| - 1], groups, aliases), last, GroupToSpec(last, groups.values[last], aliases))
  }

  /** The group tables take their own names and every other entry is kept. */
  lemma {:induction false} AddGroupEntriesValues(base: IndexMap<AliasSpecTypes>, gs: seq<string>,
                                                 groups: IndexMap<bool>, aliases: IndexMap<Alias>)
    requires forall g :: g in gs ==> g in groups.values
    ensures var m := AddGroupEntries(base, gs, groups, aliases);
      && (forall n :: n in m.values <==> n in base.values || n in gs)
      && (forall g :: g in gs ==> m.values[g] == GroupToSpec(g, groups.values[g], aliases))
      && (forall n :: n in base.values && n !in gs ==> m.values[n] == base.values[n])
    decreases |gs|
  {
    if gs != [] {
      var p := gs[..|gs| - 1];
      var last := gs[|gs| - 1];
      assert gs == p + [last];
      AddGroupEntriesValues(base, p, groups, aliases);
      var m' := AddGroupEntries(base, p, groups, aliases);
      var m := AddGroupEntries(base, gs, groups, aliases);
      assert m.values == m'.values[last := GroupToSpec(last, groups.values[last], aliases)];
    }
  }

  /** With no name clash the group tables follow the base entries, in the
      order of `gs`. */
  lemma {:induction false} AddGroupEntriesKeys(base: IndexMap<AliasSpecTypes>, gs: seq<string>,
                                               groups: IndexMap<bool>, aliases: IndexMap<Alias>)
    requires forall g :: g in gs ==> g in groups.values
    requires NoDuplicates(gs) && forall g :: g in gs ==> g !in base.values
    ensures AddGroupEntries(base, gs, groups, aliases).keys == base.keys + gs
    decreases |gs|
  {
    if gs != [] {
      var p := gs[..|gs| - 1];
      var last := gs[|gs| - 1];
      assert gs == p + [last];
      assert NoDuplicates(p) && last !in p;
      AddGroupEntriesKeys(base, p, groups, aliases);
      AddGroupEntriesValues(base, p, groups, aliases);
      var m' := AddGroupEntries(base, p, groups, aliases);
      assert last !in m'.values;
    }
  }

  /** `convert_config_to_spec` on values: the top-level aliases first, then
      one group table per group in group order. */
  function Encode(aliases: IndexMap<Alias>, groups: IndexMap<bool>): IndexMap<AliasSpecTypes> {
    AddGroupEntries(EntriesFor(TopNames(aliases, groups), aliases), groups.keys, groups, aliases)
  }

  /** What an encoded table holds: a group table for every group, and the
      entry of every top-level alias whose name no group takes. When no
      top-level alias shares its name with a group, the entries are the
      top-level aliases in alias order followed by the groups in group
      order. */
  lemma EncodeShape(aliases: IndexMap<Alias>, groups: IndexMap<bool>)
    ensures var e := Encode(aliases, groups);
      && (forall n :: n in e.values <==> n in groups.values || n in TopNames(aliases, groups))
      && (forall g :: g in groups.values ==> e.values[g] == GroupToSpec(g, groups.values[g], aliases))
      && (forall n :: n in TopNames(aliases, groups) && n !in groups.values ==>
            e.values[n] == AliasToSpec(aliases.values[n]))
      && ((forall n :: n in TopNames(aliases, groups) ==> n !in groups.values) ==>
            e.keys == TopNames(aliases, groups) + groups.keys)
  {
    var base := EntriesFor(TopNames(aliases, groups), aliases);
    AddGroupEntriesValues(base, groups.keys, groups, aliases);
    if forall n :: n in TopNames(aliases, groups) ==> n !in groups.values {
      AddGroupEntriesKeys(base, groups.keys, groups, aliases);
    }
  }

  /** An alias whose group is not registered is written as a top-level
      entry of its own. */
  lemma OrphanIsTopLevel(aliases: IndexMap<Alias>, groups: IndexMap<bool>, n: string)
    requires n in aliases.values && aliases.values[n].group.Some?
    requires aliases.values[n].group.value !in groups.values
    requires n !in groups.values
    ensures n in Encode(aliases, groups).values
    ensures Encode(aliases, groups).values[n] == AliasToSpec(aliases.values[n])
  {
    EncodeShape(aliases, groups);
  }

  /** An ungrouped alias that shares its name with a group is overwritten
      by the group's table: no alias entry of that name is written. */
  lemma NameClashLosesAlias(aliases: IndexMap<Alias>, groups: IndexMap<bool>, n: string)
    requires n in aliases.values && aliases.values[n].group.None?
    requires n in groups.values
    ensures n in Encode(aliases, groups).values
    ensures Encode(aliases, groups).values[n] == GroupToSpec(n, groups.values[n], aliases)
  {
    EncodeShape(aliases, groups);
  }

  lemma EntriesForSnoc(names: seq<string>, x: string, aliases: IndexMap<Alias>)
    requires forall n :: n in names ==> n in aliases.values
    requires x in aliases.values
    ensures EntriesFor(names + [x], aliases) == Insert(EntriesFor(names, aliases), x, AliasToSpec(aliases.values[x]))
  {
    assert (names + [x])[..|names|] == names;
  }

  lemma SelectTopStep(keys: seq<string>, i: nat, values: map<string, Alias>, groups: IndexMap<bool>)
    requires i < |keys| && forall k :: k in keys ==> k in values
    ensures SelectTop(keys[..i + 1], values, groups) ==
      SelectTop(keys[..i], values, groups) + (if TopLevel(values[keys[i]], groups) then [keys[i]] else [])
  {
    assert keys[..i + 1][..i] == keys[..i];
  }

  /** `convert_group_to_spec`, building the table alias by alias. */
  method ConvertGroupToSpec(name: string, enabled: bool, aliases: IndexMap<Alias>) returns (s: AliasSpecTypes)
    ensures s == GroupToSpec(name, enabled, aliases)
  {
    var keys := aliases.keys;
    var values := aliases.values;
    var specs: IndexMap<AliasSpecTypes> := Empty();
    var i := 0;
    assert keys[..0] == [];
    assert specs == EntriesFor(Select(keys[..0], values, Some(name)), aliases);
    while i < |keys|
      invariant 0 <= i <= |keys|
      invariant specs == EntriesFor(Select(keys[..i], values, Some(name)), aliases)
    {
      var k := keys[i];
      SelectStep(keys, i, values, Some(name));
      ghost var sel := Select(keys[..i], values, Some(name));
      if values[k].group == Some(name) {
        EntriesForSnoc(sel, k, aliases);
        specs := Insert(specs, k, AliasToSpec(values[k]));
        assert specs == EntriesFor(sel + [k], aliases);
        assert Select(keys[..i + 1], values, Some(name)) == sel + [k];
      } else {
        assert Select(keys[..i + 1], values, Some(name)) == sel;
      }
      assert specs == EntriesFor(Select(keys[..i + 1], values, Some(name)), aliases);
      i := i + 1;
    }
    assert keys[..i] == keys;
    s := Group(GroupSpec(enabled, specs));
  }

  /** `convert_config_to_spec`: the top-level aliases in one pass over the
      aliases, then the group tables in one pass over the groups. */
  method ConvertConfigToSpec(config: Config) returns (spec: ConfigSpec)
    ensures spec.entries == Encode(config.aliases, config.groups)
  {
    var keys := config.aliases.keys;
    var values := config.aliases.values;
    var entries: IndexMap<AliasSpecTypes> := Empty();
    var i := 0;
    assert keys[..0] == [];
    assert entries == EntriesFor(SelectTop(keys[..0], values, config.groups), config.aliases);
    while i < |keys|
      invariant 0 <= i <= |keys|
      invariant entries == EntriesFor(SelectTop(keys[..i], values, config.groups), config.aliases)
    {
      var k := keys[i];
      SelectTopStep(keys, i, values, config.groups);
      ghost var sel := SelectTop(keys[..i], values, config.groups);
      var a := values[k];
      if a.group.Some? && a.group.value in config.groups.values {
        assert SelectTop(keys[..i + 1], values, config.groups) == sel;
        i := i + 1;
        continue;
      }
      EntriesForSnoc(sel, k, config.aliases);
      entries := Insert(entries, k, AliasToSpec(a));
      assert entries == EntriesFor(sel + [k], config.aliases);
      assert SelectTop(keys[..i + 1], values, config.groups) == sel + [k];
      i := i + 1;
    }
    assert keys[..i] == keys;
    var base := entries;
    var groupKeys := config.groups.keys;
    var j := 0;
    while j < |groupKeys|
      invariant 0 <= j <= |groupKeys|
      invariant entries == AddGroupEntries(base, groupKeys[..j], config.groups, config.aliases)
    {
      var g := groupKeys[j];
      assert groupKeys[..j + 1][..j] == groupKeys[..j];
      var table := ConvertGroupToSpec(g, config.groups.values[g], config.aliases);
      entries := Insert(entries, g, table);
      assert entries == AddGroupEntries(base, groupKeys[..j + 1], config.groups, config.aliases);
      j := j + 1;
    }
    assert groupKeys[..j] == groupKeys;
    spec := ConfigSpec(entries);
  }

  // ---------------------------------------------------------------------
  // Decoding

  /** `convert_spec_to_alias`: the short form is an enabled alias in short
      form, the explicit form keeps its flag and stays explicit, and a group
      table is not an alias. */
  function SpecToAlias(spec: AliasSpecTypes, group: Option<string>): (r: Result<Alias, SpecError>)
    ensures r.Err? <==> spec.Group?
    ensures r.Ok? ==> r.value.group == group && !r.value.global
    ensures spec.Simple? ==> r.value.command == spec.command && r.value.enabled && !r.value.detailed
    ensures spec.Detailed? ==>
      r.value.command == spec.spec.command && r.value.enabled == spec.spec.enabled && r.value.detailed
  {
    match spec
    case Simple(command) => Ok(Alias(command, group, true, false, false))
    case Detailed(s) => Ok(Alias(s.command, group, s.enabled, true, false))
    case Group(_) => Err(NestedGroupsUnsupported)
  }

  /** An alias survives being written and read back exactly when it is not
      global and is enabled or explicit. */
  lemma AliasRoundTrip(a: Alias)
    ensures SpecToAlias(AliasToSpec(a), a.group) == Ok(a) <==> !a.global && (a.detailed || a.enabled)
  {
  }

  /** The entry is a group table with a group table among its members. */
  predicate HasNested(e: AliasSpecTypes) {
    e.Group? && exists k :: k in e.group.aliases.values && e.group.aliases.values[k].Group?
  }

  /** The member loop of a group table: every member becomes an alias of
      `group`, and any member that is itself a group table is an error. */
  function DecodeMembers(acc: IndexMap<Alias>, inner: IndexMap<AliasSpecTypes>, ks: seq<string>,
                         group: string): (r: Result<IndexMap<Alias>, SpecError>)
    requires forall k :: k in ks ==> k in inner.values
    ensures r.Ok? <==> forall k :: k in ks ==> !inner.values[k].Group?
    ensures r.Ok? ==> forall n :: n in r.value.values <==> n in acc.values || n in ks
    ensures r.Ok? ==> forall n :: n in ks ==>
      r.value.values[n] == SpecToAlias(inner.values[n], Some(group)).value
    ensures r.Ok? ==> forall n :: n in acc.values && n !in ks ==> r.value.values[n] == acc.values[n]
    decreases |ks|
  {
    if ks == [] then Ok(acc)
    else
      var p := ks[..|ks| - 1];
      var last := ks[|ks| - 1];
      assert ks == p + [last];
      match DecodeMembers(acc, inner, p, group)
      case Err(e) => Err(e)
      case Ok(m) =>
        match SpecToAlias(inner.values[last], Some(group))
        case Err(e) => Err(e)
        case Ok(a) => Ok(Insert(m, last, a))
  }

  /** One top-level entry: a group table registers the group with its flag
      and adds its members as aliases of that group; any other entry adds
      an ungrouped alias. */
  function DecodeEntry(d: Decoded, name: string, e: AliasSpecTypes): (r: Result<Decoded, SpecError>)
    ensures r.Err? <==> HasNested(e)
    ensures !e.Group? ==>
      r.Ok? && r.value.groups == d.groups && r.value.aliases == Insert(d.aliases, name, SpecToAlias(e, None).value)
    ensures r.Ok? && e.Group? ==>
      && r.value.groups == Insert(d.groups, name, e.group.enabled)
      && (forall n :: n in r.value.aliases.values <==> n in d.aliases.values || n in e.group.aliases.values)
      && (forall n :: n in e.group.aliases.values ==>
            r.value.aliases.values[n] == SpecToAlias(e.group.aliases.values[n], Some(name)).value &&
            r.value.aliases.values[n].group == Some(name))
      && (forall n :: n in d.aliases.values && n !in e.group.aliases.values ==>
            r.value.aliases.values[n] == d.aliases.values[n])
  {
    match e
    case Group(gs) =>
      var groups := Insert(d.groups, name, gs.enabled);
      (match DecodeMembers(d.aliases, gs.aliases, gs.aliases.keys, name)
       case Err(err) => Err(err)
       case Ok(a) => Ok(Decoded(a, groups)))
    case _ => Ok(Decoded(Insert(d.aliases, name, SpecToAlias(e, None).value), d.groups))
  }

  /** The entry loop over the first entries `ks`; decoding fails exactly
      when one of them is a group table holding a group table. */
  function DecodeKeys(entries: IndexMap<AliasSpecTypes>, ks: seq<string>): (r: Result<Decoded, SpecError>)
    requires forall k :: k in ks ==> k in entries.values
    ensures r.Err? <==> exists k :: k in ks && HasNested(entries.values[k])
    decreases |ks|
  {
    if ks == [] then Ok(Decoded(Empty(), Empty()))
    else
      var p := ks[..|ks| - 1];
      var last := ks[|ks| - 1];
      assert ks == p + [last];
      match DecodeKeys(entries, p)
      case Err(e) => Err(e)
      case Ok(d) => DecodeEntry(d, last, entries.values[last])
  }

  /** `convert_spec_to_config` on values. */
  function Decode(spec: ConfigSpec): (r: Result<Decoded, SpecError>)
    ensures r.Err? <==> exists k :: k in spec.entries.values && HasNested(spec.entries.values[k])
  {
    DecodeKeys(spec.entries, spec.entries.keys)
  }

  lemma DecodeMembersStep(acc: IndexMap<Alias>, inner: IndexMap<AliasSpecTypes>, ks: seq<string>, k: nat,
                          group: string, m: IndexMap<Alias>)
    requires k < |ks| && forall x :: x in ks ==> x in inner.values
    requires DecodeMembers(acc, inner, ks[..k], group) == Ok(m)
    ensures var a := SpecToAlias(inner.values[ks[k]], Some(group));
      DecodeMembers(acc, inner, ks[..k + 1], group) == if a.Err? then Err(a.error) else Ok(Insert(m, ks[k], a.value))
  {
    assert ks[..k + 1][..k] == ks[..k];
  }

  lemma DecodeKeysStep(entries: IndexMap<AliasSpecTypes>, ks: seq<string>, i: nat, d: Decoded)
    requires i < |ks| && forall x :: x in ks ==> x in entries.values
    requires DecodeKeys(entries, ks[..i]) == Ok(d)
    ensures DecodeKeys(entries, ks[..i + 1]) == DecodeEntry(d, ks[i], entries.values[ks[i]])
  {
    assert ks[..i + 1][..i] == ks[..i];
  }

  lemma DecodeMembersFails(acc: IndexMap<Alias>, inner: IndexMap<AliasSpecTypes>, ks: seq<string>,
                           x: string, group: string)
    requires forall k :: k in ks ==> k in inner.values
    requires x in ks && inner.values[x].Group?
    ensures DecodeMembers(acc, inner, ks, group) == Err(NestedGroupsUnsupported)
  {
    var r := DecodeMembers(acc, inner, ks, group);
    assert r.Err?;
    assert r.error.NestedGroupsUnsupported?;
  }

  /** The member pass of `convert_spec_to_config` over one group table. */
  method DecodeGroupTable(aliases: IndexMap<Alias>, name: string, gs: GroupSpec) returns (r: Result<IndexMap<Alias>, SpecError>)
    ensures r == DecodeMembers(aliases, gs.aliases, gs.aliases.keys, name)
  {
    var inner := gs.aliases.keys;
    var acc := aliases;
    var k := 0;
    assert inner[..0] == [];
    while k < |inner|
      invariant 0 <= k <= |inner|
      invariant DecodeMembers(aliases, gs.aliases, inner[..k], name) == Ok(acc)
    {
      var aliasName := inner[k];
      DecodeMembersStep(aliases, gs.aliases, inner, k, name, acc);
      var decoded := SpecToAlias(gs.aliases.values[aliasName], Some(name));
      if decoded.Err? {
        DecodeMembersFails(aliases, gs.aliases, inner, aliasName, name);
        return Err(decoded.error);
      }
      acc := Insert(acc, aliasName, decoded.value);
      k := k + 1;
    }
    assert inner[..k] == inner;
    r := Ok(acc);
  }

  /** `convert_spec_to_config`: one pass over the entries, and for a group
      table one pass over its members. The panic on a nested group table is
      the error result. */
  method ConvertSpecToConfig(spec: ConfigSpec) returns (r: Result<Config, SpecError>)
    ensures r.Err? <==> Decode(spec).Err?
    ensures r.Ok? ==>
      fresh(r.value) && r.value.aliases == Decode(spec).value.aliases && r.value.groups == Decode(spec).value.groups
  {
    var keys := spec.entries.keys;
    var aliases: IndexMap<Alias> := Empty();
    var groups: IndexMap<bool> := Empty();
    var i := 0;
    assert keys[..0] == [];
    while i < |keys|
      invariant 0 <= i <= |keys|
      invariant DecodeKeys(spec.entries, keys[..i]) == Ok(Decoded(aliases, groups))
    {
      var name := keys[i];
      var entry := spec.entries.values[name];
      DecodeKeysStep(spec.entries, keys, i, Decoded(aliases, groups));
      match entry {
        case Group(gs) =>
          var members := DecodeGroupTable(aliases, name, gs);
          if members.Err? {
            assert HasNested(entry) && name in spec.entries.values;
            return Err(members.error);
          }
          groups := Insert(groups, name, gs.enabled);
          aliases := members.value;
        case _ =>
          aliases := Insert(aliases, name, SpecToAlias(entry, None).value);
      }
      assert DecodeKeys(spec.entries, keys[..i + 1]) == Ok(Decoded(aliases, groups));
      i := i + 1;
    }
    assert keys[..i] == keys;
    var c := new Config();
    c.aliases := aliases;
    c.groups := groups;
    r := Ok(c);
  }
}
