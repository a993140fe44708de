/** `diff_global_options` as it runs. */
module FirewallDiff {
  import opened Text
  import opened ConfigTree
  import opened Fields
  import opened Edits
  import opened DiffBuilder
  import opened FirewallOptions

  /** One pass of the loop over the connection states. */
  method PolicyCommands(state: string, live: PolicyEntry, desired: PolicyEntry) returns (cs: seq<Cmd>)
    ensures cs == Below(BASE + ["state-policy", state], EntryCmds(live, WantedEntry(desired)))
  {
    var base := BASE + ["state-policy", state];
    ghost var w := WantedEntry(desired);
    if Wanted(desired.action).None? {
      assert base + [] == base;
      return if live.action.Some? then [Cmd(Delete, base)] else [];
    }
    hide Below;
    var action := LeafCommands(base + ["action"], live.action, desired.action);
    var log := FlagCommands(base + ["log"], live.log, desired.log);
    var level := LeafCommands(base + ["log-options", "level"], live.level, desired.level);
    cs := action + log + level;
    ghost var es := EntryEdits(live, w);
    NoEdits(base);
    GrowList(base, [], es[0]);
    GrowList(base, [es[0]], es[1]);
    GrowList(base, [es[0], es[1]], es[2]);
    assert [] + [es[0]] == [es[0]] && [es[0]] + [es[1]] == [es[0], es[1]] && [es[0], es[1]] + [es[2]] == es;
  }

  lemma NoEdits(base: Path)
    ensures Below(base, Flat([])) == []
  {
  }

  method ComputeDiffGlobalOptions(live: GlobalOptions, update: GlobalOptions) returns (out: seq<Cmd>)
    ensures out == DiffGlobalOptions(live, update)
  {
    hide Below, Flat, EntryCmds, OptionPaths, WantedOptions, PlaceCmds;
    ghost var edits := OptionEdits(live, WantedOptions(update));
    out := [];
    NoEdits(BASE);
    var liveSingles, updateSingles := Singles(live), Singles(update);
    for i := 0 to 14
      invariant out == Below(BASE, Flat(edits[..i]))
    {
      SingleEdit(live, update, i);
      GrowList(BASE, edits[..i], edits[i]);
      assert edits[..i] + [edits[i]] == edits[..i + 1];
      var cs := LeafCommands(BASE + [SINGLE_KEYS[i]], liveSingles[i], updateSingles[i]);
      out := out + cs;
    }
    ResolverEdits(live, update);
    GrowList(BASE, edits[..14], edits[14]);
    assert edits[..14] + [edits[14]] == edits[..15];
    var cache := FlagCommands(BASE + ["resolver-cache"], live.resolverCache, update.resolverCache);
    out := out + cache;
    GrowList(BASE, edits[..15], edits[15]);
    assert edits[..15] + [edits[15]] == edits[..16];
    var interval := LeafCommands(BASE + ["resolver-interval"], live.resolverInterval, update.resolverInterval);
    out := out + interval;
    var liveEntries, updateEntries := Entries(live), Entries(update);
    for i := 0 to 3
      invariant out == Below(BASE, Flat(edits[..16 + i]))
    {
      PolicyEdit(live, update, i);
      GrowList(BASE, edits[..16 + i], edits[16 + i]);
      assert edits[..16 + i] + [edits[16 + i]] == edits[..16 + i + 1];
      var cs := PolicyCommands(STATES[i], liveEntries[i], updateEntries[i]);
      out := out + cs;
    }
    assert edits[..19] == edits;
  }

  lemma SingleEdit(live: GlobalOptions, update: GlobalOptions, i: nat)
    requires i < 14
    ensures OptionEdits(live, WantedOptions(update))[i] ==
            Edit([SINGLE_KEYS[i]], TextCmds(Singles(live)[i], Wanted(Singles(update)[i])))
  {
    hide Wanted, TextCmds;
    match i {
      case 0 => case 1 => case 2 => case 3 => case 4 => case 5 => case 6 =>
      case 7 => case 8 => case 9 => case 10 => case 11 => case 12 => case _ =>
    }
  }

  lemma ResolverEdits(live: GlobalOptions, update: GlobalOptions)
    ensures OptionEdits(live, WantedOptions(update))[14] ==
            Edit(["resolver-cache"], FlagCmds(live.resolverCache, update.resolverCache))
    ensures OptionEdits(live, WantedOptions(update))[15] ==
            Edit(["resolver-interval"], TextCmds(live.resolverInterval, Wanted(update.resolverInterval)))
  {
  }

  lemma PolicyEdit(live: GlobalOptions, update: GlobalOptions, i: nat)
    requires i < 3
    ensures OptionEdits(live, WantedOptions(update))[16 + i] ==
            Edit(["state-policy", STATES[i]], EntryCmds(Entries(live)[i], WantedEntry(Entries(update)[i])))
  {
    hide WantedEntry, EntryCmds;
    match i {
      case 0 => case 1 => case _ =>
    }
  }
}
