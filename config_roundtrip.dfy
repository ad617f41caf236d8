/** Writing a configuration to its entry table and reading it back. */
module ConfigRoundTrip {
  import opened Wrappers
  import opened IndexMaps
  import opened ConfigTypes
  import opened CoreList
  import opened ConfigSpec

  /** The configurations the file form can carry without loss: every group
      an alias names is registered, an alias in short form is enabled, no
      alias is global, and no ungrouped alias shares its name with a group. */
  predicate RoundTrippable(aliases: IndexMap<Alias>, groups: IndexMap<bool>) {
    forall n :: n in aliases.values ==>
      && (aliases.values[n].group.Some? ==> aliases.values[n].group.value in groups.values)
      && (!aliases.values[n].detailed ==> aliases.values[n].enabled)
      && !aliases.values[n].global
      && (aliases.values[n].group.None? ==> n !in groups.values)
  }

  /** The names listed in `s`. */
  function Elems(s: seq<string>): set<string> {
    set m | m in s
  }

  /** The aliases that are ungrouped or belong to one of `gs`. */
  function Covered(aliases: IndexMap<Alias>, gs: seq<string>): set<string> {
    set n | n in aliases.values && (aliases.values[n].group.None? || aliases.values[n].group.value in gs)
  }

  /** A partial decoding holds exactly the aliases `names`, as they were,
      and exactly the groups `gs`, in that order and with their flags. */
  predicate Holds(d: Decoded, names: set<string>, aliases: IndexMap<Alias>, gs: seq<string>, groups: IndexMap<bool>) {
    && d.aliases.values.Keys == names
    && (forall n :: n in names ==> n in aliases.values && d.aliases.values[n] == aliases.values[n])
    && d.groups.keys == gs
    && (forall g :: g in gs ==> g in groups.values && d.groups.values[g] == groups.values[g])
  }

  /** The first entries of `e` are the aliases `top`, ungrouped and in the
      forms that read back unchanged. */
  predicate TopPart(e: IndexMap<AliasSpecTypes>, top: seq<string>, aliases: IndexMap<Alias>) {
    && |top| <= |e.keys| && e.keys[..|top|] == top
    && forall n :: n in top ==>
      && n in aliases.values && n in e.values
      && e.values[n] == AliasToSpec(aliases.values[n])
      && SpecToAlias(e.values[n], None) == Ok(aliases.values[n])
  }

  /** Reading back the first `i` entries, all top-level aliases, gives back
      exactly those aliases and no group. */
  lemma {:induction false} DecodeTopPrefix(e: IndexMap<AliasSpecTypes>, top: seq<string>, aliases: IndexMap<Alias>,
                                           groups: IndexMap<bool>, i: nat)
    requires TopPart(e, top, aliases)
    requires i <= |top|
    ensures var r := DecodeKeys(e, e.keys[..i]);
      r.Ok? && Holds(r.value, Elems(top[..i]), aliases, [], groups)
  {
    if i == 0 {
      assert e.keys[..0] == [];
    } else {
      DecodeTopPrefix(e, top, aliases, groups, i - 1);
      var d := DecodeKeys(e, e.keys[..i - 1]).value;
      DecodeKeysStep(e, e.keys, i - 1, d);
      var n := top[i - 1];
      assert e.keys[..i][..i - 1] == e.keys[..i - 1];
      assert e.keys[i - 1] == n;
      var d' := DecodeKeys(e, e.keys[..i]).value;
      assert !e.values[n].Group?;
      assert d' == Decoded(Insert(d.aliases, n, aliases.values[n]), d.groups);
      HoldsInsert(d, Elems(top[..i - 1]), aliases, groups, n);
      SetOfSnoc(top, i - 1);
    }
  }

  lemma SetOfSnoc(s: seq<string>, i: nat)
    requires i < |s|
    ensures Elems(s[..i + 1]) == Elems(s[..i]) + {s[i]}
  {
    assert s[..i + 1] == s[..i] + [s[i]];
  }

  /** Adding one alias, as it was, to a partial decoding with no groups. */
  lemma HoldsInsert(d: Decoded, names: set<string>, aliases: IndexMap<Alias>, groups: IndexMap<bool>, n: string)
    requires Holds(d, names, aliases, [], groups) && n in aliases.values
    ensures Holds(Decoded(Insert(d.aliases, n, aliases.values[n]), d.groups), names + {n}, aliases, [], groups)
  {
  }

  /** Reading back one group table: the group joins the groups with its
      flag, and its members join the aliases as they were. */
  lemma DecodeGroupStep(aliases: IndexMap<Alias>, groups: IndexMap<bool>, j: nat, d: Decoded)
    requires RoundTrippable(aliases, groups)
    requires j < |groups.keys|
    requires Holds(d, Covered(aliases, groups.keys[..j]), aliases, groups.keys[..j], groups)
    ensures var g := groups.keys[j];
      var r := DecodeEntry(d, g, GroupToSpec(g, groups.values[g], aliases));
      r.Ok? && Holds(r.value, Covered(aliases, groups.keys[..j + 1]), aliases, groups.keys[..j + 1], groups)
  {
    var g := groups.keys[j];
    var table := GroupToSpec(g, groups.values[g], aliases);
    var members := table.group.aliases;
    assert !HasNested(table);
    var d' := DecodeEntry(d, g, table).value;
    forall n | n in members.values
      ensures d'.aliases.values[n] == aliases.values[n]
    {
      AliasRoundTrip(aliases.values[n]);
    }
    assert groups.keys[..j + 1] == groups.keys[..j] + [g];
    assert g !in groups.keys[..j];
    MembersCover(aliases, groups, j, members);
    HoldsGroup(d, d', Covered(aliases, groups.keys[..j]), members.values.Keys, aliases, groups.keys[..j], groups, g);
  }

  /** Adding one group, with its flag, and its members, as they were, to a
      partial decoding. */
  lemma HoldsGroup(d: Decoded, d': Decoded, names: set<string>, members: set<string>, aliases: IndexMap<Alias>,
                   gs: seq<string>, groups: IndexMap<bool>, g: string)
    requires Holds(d, names, aliases, gs, groups)
    requires g in groups.values && g !in gs
    requires d'.groups == Insert(d.groups, g, groups.values[g])
    requires forall n :: n in d'.aliases.values <==> n in d.aliases.values || n in members
    requires forall n :: n in members ==> n in aliases.values && d'.aliases.values[n] == aliases.values[n]
    requires forall n :: n in d.aliases.values && n !in members ==> d'.aliases.values[n] == d.aliases.values[n]
    ensures Holds(d', names + members, aliases, gs + [g], groups)
  {
  }

  /** The members of the `j`th group extend the aliases covered by the
      groups before it to those covered by the groups up to it. */
  lemma MembersCover(aliases: IndexMap<Alias>, groups: IndexMap<bool>, j: nat, members: IndexMap<AliasSpecTypes>)
    requires j < |groups.keys|
    requires forall n :: n in members.values <==> n in aliases.values && aliases.values[n].group == Some(groups.keys[j])
    ensures Covered(aliases, groups.keys[..j + 1]) == Covered(aliases, groups.keys[..j]) + members.values.Keys
  {
    assert groups.keys[..j + 1] == groups.keys[..j] + [groups.keys[j]];
  }

  /** The entries of `e` after the top-level aliases are the group tables,
      in group order. */
  predicate GroupPart(e: IndexMap<AliasSpecTypes>, top: seq<string>, aliases: IndexMap<Alias>, groups: IndexMap<bool>) {
    && e.keys == top + groups.keys
    && forall g :: g in groups.values ==> g in e.values && e.values[g] == GroupToSpec(g, groups.values[g], aliases)
  }

  /** Reading back all the top-level aliases gives the ungrouped aliases. */
  lemma DecodeTopAll(e: IndexMap<AliasSpecTypes>, top: seq<string>, aliases: IndexMap<Alias>, groups: IndexMap<bool>)
    requires TopPart(e, top, aliases)
    requires Elems(top) == Covered(aliases, [])
    ensures var r := DecodeKeys(e, e.keys[..|top|]);
      r.Ok? && Holds(r.value, Covered(aliases, groups.keys[..0]), aliases, groups.keys[..0], groups)
  {
    DecodeTopPrefix(e, top, aliases, groups, |top|);
    assert top[..|top|] == top;
    assert groups.keys[..0] == [];
  }

  /** Reading back the top-level aliases `top` and then the first `j` group
      tables gives the ungrouped aliases, those groups and their members. */
  predicate DecodedUpTo(e: IndexMap<AliasSpecTypes>, top: seq<string>, aliases: IndexMap<Alias>,
                        groups: IndexMap<bool>, j: nat)
    requires j <= |groups.keys| && |top| + j <= |e.keys|
  {
    var r := DecodeKeys(e, e.keys[..|top| + j]);
    r.Ok? && Holds(r.value, Covered(aliases, groups.keys[..j]), aliases, groups.keys[..j], groups)
  }

  /** The entry after the top-level aliases and `j` group tables is the
      table of the `j`th group. */
  predicate GroupAt(e: IndexMap<AliasSpecTypes>, top: seq<string>, aliases: IndexMap<Alias>,
                    groups: IndexMap<bool>, j: nat)
    requires j < |groups.keys|
  {
    && |top| + j < |e.keys| && e.keys[|top| + j] == groups.keys[j]
    && e.values[groups.keys[j]] == GroupToSpec(groups.keys[j], groups.values[groups.keys[j]], aliases)
  }

  /** One more group table read back after the top-level aliases and the
      first `j` group tables. */
  lemma DecodeNextGroup(e: IndexMap<AliasSpecTypes>, top: seq<string>, aliases: IndexMap<Alias>,
                        groups: IndexMap<bool>, j: nat)
    requires RoundTrippable(aliases, groups)
    requires j < |groups.keys| && GroupAt(e, top, aliases, groups, j)
    requires DecodedUpTo(e, top, aliases, groups, j)
    ensures DecodedUpTo(e, top, aliases, groups, j + 1)
  {
    var d := DecodeKeys(e, e.keys[..|top| + j]).value;
    DecodeKeysStep(e, e.keys, |top| + j, d);
    DecodeGroupStep(aliases, groups, j, d);
  }

  /** Reading back the top-level aliases and the first `j` group tables. */
  lemma {:induction false} DecodeGroupsPrefix(e: IndexMap<AliasSpecTypes>, top: seq<string>, aliases: IndexMap<Alias>,
                                              groups: IndexMap<bool>, j: nat)
    requires RoundTrippable(aliases, groups)
    requires forall k :: 0 <= k < |groups.keys| ==> GroupAt(e, top, aliases, groups, k)
    requires |top| + |groups.keys| <= |e.keys|
    requires DecodedUpTo(e, top, aliases, groups, 0)
    requires j <= |groups.keys|
    ensures DecodedUpTo(e, top, aliases, groups, j)
  {
    if j > 0 {
      DecodeGroupsPrefix(e, top, aliases, groups, j - 1);
      DecodeNextGroup(e, top, aliases, groups, j - 1);
    }
  }

  /** Under the round-trip conditions no top-level alias is named like a
      group, and the top-level aliases are exactly the ungrouped ones. */
  lemma TopIsUngrouped(aliases: IndexMap<Alias>, groups: IndexMap<bool>)
    requires RoundTrippable(aliases, groups)
    ensures forall n :: n in TopNames(aliases, groups) ==> n !in groups.values
    ensures Elems(TopNames(aliases, groups)) == Covered(aliases, [])
  {
  }

  /** Under the round-trip conditions the encoding starts with the
      top-level aliases, in forms that read back unchanged. */
  lemma EncodeTopPart(aliases: IndexMap<Alias>, groups: IndexMap<bool>)
    requires RoundTrippable(aliases, groups)
    ensures TopPart(Encode(aliases, groups), TopNames(aliases, groups), aliases)
  {
    var e := Encode(aliases, groups);
    var top := TopNames(aliases, groups);
    TopIsUngrouped(aliases, groups);
    EncodeShape(aliases, groups);
    assert e.keys[..|top|] == top;
    TopReadsBack(aliases, groups);
  }

  /** Under the round-trip conditions every top-level alias reads back
      unchanged from the form it is written in. */
  lemma TopReadsBack(aliases: IndexMap<Alias>, groups: IndexMap<bool>)
    requires RoundTrippable(aliases, groups)
    ensures forall n :: n in TopNames(aliases, groups) ==>
      SpecToAlias(AliasToSpec(aliases.values[n]), None) == Ok(aliases.values[n])
  {
    forall n | n in TopNames(aliases, groups)
      ensures SpecToAlias(AliasToSpec(aliases.values[n]), None) == Ok(aliases.values[n])
    {
      AliasRoundTrip(aliases.values[n]);
    }
  }

  /** Under the round-trip conditions the encoding ends with the group
      tables, in group order. */
  lemma EncodeGroupPart(aliases: IndexMap<Alias>, groups: IndexMap<bool>)
    requires RoundTrippable(aliases, groups)
    ensures GroupPart(Encode(aliases, groups), TopNames(aliases, groups), aliases, groups)
  {
    TopIsUngrouped(aliases, groups);
    EncodeShape(aliases, groups);
  }

  /** Writing a round-trippable configuration and reading it back gives the
      same aliases under the same names and the same groups, in the same
      order and with the same flags. */
  lemma RoundTrip(aliases: IndexMap<Alias>, groups: IndexMap<bool>)
    requires RoundTrippable(aliases, groups)
    ensures var r := Decode(ConfigSpec(Encode(aliases, groups)));
      r.Ok? && r.value.aliases.values == aliases.values && r.value.groups == groups
  {
    var e := Encode(aliases, groups);
    var top := TopNames(aliases, groups);
    EncodeTopPart(aliases, groups);
    EncodeGroupPart(aliases, groups);
    TopIsUngrouped(aliases, groups);
    DecodeTopAll(e, top, aliases, groups);
    forall k | 0 <= k < |groups.keys| ensures GroupAt(e, top, aliases, groups, k) {
      assert e.keys[|top| + k] == groups.keys[k];
      assert groups.keys[k] in groups.values;
    }
    DecodeGroupsPrefix(e, top, aliases, groups, |groups.keys|);
    DecodeAll(e, top, aliases, groups);
  }

  /** Reading back every entry, once all of them are the top-level aliases
      and the group tables. */
  lemma DecodeAll(e: IndexMap<AliasSpecTypes>, top: seq<string>, aliases: IndexMap<Alias>, groups: IndexMap<bool>)
    requires RoundTrippable(aliases, groups)
    requires |e.keys| == |top| + |groups.keys|
    requires DecodedUpTo(e, top, aliases, groups, |groups.keys|)
    ensures var r := Decode(ConfigSpec(e));
      r.Ok? && r.value.aliases.values == aliases.values && r.value.groups == groups
  {
    assert e.keys[..|top| + |groups.keys|] == e.keys;
    assert groups.keys[..|groups.keys|] == groups.keys;
    CoveredAll(aliases, groups);
    HoldsEverything(Decode(ConfigSpec(e)).value, aliases, groups);
  }

  /** With every group named by an alias registered, the aliases covered by
      all the groups are all the aliases. */
  lemma CoveredAll(aliases: IndexMap<Alias>, groups: IndexMap<bool>)
    requires RoundTrippable(aliases, groups)
    ensures Covered(aliases, groups.keys) == aliases.values.Keys
  {
  }

  /** A decoding that holds every alias and every group is the configuration
      itself. */
  lemma HoldsEverything(d: Decoded, aliases: IndexMap<Alias>, groups: IndexMap<bool>)
    requires Holds(d, aliases.values.Keys, aliases, groups.keys, groups)
    ensures d.aliases.values == aliases.values && d.groups == groups
  {
    assert d.groups.values == groups.values;
  }

  /** An alias in short form that is disabled comes back enabled. */
  lemma DisabledShortFormComesBackEnabled(a: Alias)
    requires !a.detailed && !a.enabled && !a.global
    ensures SpecToAlias(AliasToSpec(a), a.group) == Ok(a.(enabled := true))
  {
  }

  /** The save-then-load cycle on a configuration object. */
  method SaveThenLoad(config: Config) returns (loaded: Config)
    requires RoundTrippable(config.aliases, config.groups)
    ensures loaded.aliases.values == config.aliases.values
    ensures loaded.groups == config.groups
  {
    var spec := ConvertConfigToSpec(config);
    RoundTrip(config.aliases, config.groups);
    var r := ConvertSpecToConfig(spec);
    loaded := r.value;
  }
}
