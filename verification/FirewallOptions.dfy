/** `firewall global-options`: reading them, diffing them against the form, and what committing the diff yields. */
module FirewallOptions {
  import opened Options
  import opened Text
  import opened ConfigTree
  import opened Fields
  import opened Edits
  import opened DeviceSchema

  datatype PolicyEntry = PolicyEntry(action: Option<string>, log: bool, level: Option<string>)

  /** Live options and the form's options have the same fields. */
  datatype GlobalOptions = GlobalOptions(
    allPing: Option<string>, broadcastPing: Option<string>, directedBroadcast: Option<string>,
    ipSrcRoute: Option<string>, ipv6SrcRoute: Option<string>, ipv6ReceiveRedirects: Option<string>,
    receiveRedirects: Option<string>, sendRedirects: Option<string>, logMartians: Option<string>,
    synCookies: Option<string>, twaHazardsProtection: Option<string>, applyToBridge: Option<string>,
    sourceValidation: Option<string>, ipv6SourceValidation: Option<string>,
    resolverCache: bool, resolverInterval: Option<string>,
    established: PolicyEntry, related: PolicyEntry, invalid: PolicyEntry)

  const BASE: Path := ["firewall", "global-options"]

  const SINGLE_KEYS := [
    "all-ping", "broadcast-ping", "directed-broadcast", "ip-src-route", "ipv6-src-route",
    "ipv6-receive-redirects", "receive-redirects", "send-redirects", "log-martians", "syn-cookies",
    "twa-hazards-protection", "apply-to-bridge", "source-validation", "ipv6-source-validation"]

  const STATES := ["established", "related", "invalid"]

  /** The single-valued fields in the order of `SINGLE_KEYS`. */
  function Singles(o: GlobalOptions): (r: seq<Option<string>>)
    ensures |r| == 14
  {
    [o.allPing, o.broadcastPing, o.directedBroadcast, o.ipSrcRoute, o.ipv6SrcRoute, o.ipv6ReceiveRedirects,
     o.receiveRedirects, o.sendRedirects, o.logMartians, o.synCookies, o.twaHazardsProtection, o.applyToBridge,
     o.sourceValidation, o.ipv6SourceValidation]
  }

  function Entries(o: GlobalOptions): (r: seq<PolicyEntry>)
    ensures |r| == 3
  {
    [o.established, o.related, o.invalid]
  }

  // ── reading ────────────────────────────────────────────────────────────────

  function ReadEntry(cur: Slot): PolicyEntry {
    PolicyEntry(ReadText(Get(cur, ["action"])), Get(cur, ["log"]).Some?,
                ReadText(Get(cur, ["log-options", "level"])))
  }

  /** `gather_global_options` on the subtree the device returned. */
  function Gather(data: Slot): GlobalOptions {
    GlobalOptions(
      ReadText(Get(data, ["all-ping"])), ReadText(Get(data, ["broadcast-ping"])),
      ReadText(Get(data, ["directed-broadcast"])), ReadText(Get(data, ["ip-src-route"])),
      ReadText(Get(data, ["ipv6-src-route"])), ReadText(Get(data, ["ipv6-receive-redirects"])),
      ReadText(Get(data, ["receive-redirects"])), ReadText(Get(data, ["send-redirects"])),
      ReadText(Get(data, ["log-martians"])), ReadText(Get(data, ["syn-cookies"])),
      ReadText(Get(data, ["twa-hazards-protection"])), ReadText(Get(data, ["apply-to-bridge"])),
      ReadText(Get(data, ["source-validation"])), ReadText(Get(data, ["ipv6-source-validation"])),
      Get(data, ["resolver-cache"]).Some?, ReadText(Get(data, ["resolver-interval"])),
      ReadEntry(Get(data, ["state-policy", "established"])), ReadEntry(Get(data, ["state-policy", "related"])),
      ReadEntry(Get(data, ["state-policy", "invalid"])))
  }

  // ── one state policy ───────────────────────────────────────────────────────

  const CLEARED := PolicyEntry(None, false, None)

  function WantedEntry(e: PolicyEntry): PolicyEntry {
    if Wanted(e.action).None? then CLEARED else PolicyEntry(Wanted(e.action), e.log, Wanted(e.level))
  }

  function EntryEdits(s: PolicyEntry, w: PolicyEntry): seq<Edit> {
    [ Edit(["action"], TextCmds(s.action, w.action)),
      Edit(["log"], FlagCmds(s.log, w.log)),
      Edit(["log-options", "level"], TextCmds(s.level, w.level)) ]
  }

  /** Clearing the action removes the state's node, if an action is live; otherwise the three leaves are diffed. */
  function EntryCmds(s: PolicyEntry, w: PolicyEntry): seq<Cmd> {
    if w.action.None? then (if s.action.Some? then [Cmd(Delete, [])] else [])
    else Flat(EntryEdits(s, w))
  }

  /** What a state's entry ends as: as wanted, except that a cleared action leaves a log without action alone. */
  function Left(s: PolicyEntry, w: PolicyEntry): PolicyEntry {
    if w.action.Some? || s.action.Some? then w else s
  }

  ghost predicate EntryShape(cur: Slot) {
    && (cur.Some? ==> cur.value.Obj?)
    && (Kid(cur, "log-options").Some? ==> Kid(cur, "log-options").value.Obj?)
  }

  ghost predicate CleanEntry(w: PolicyEntry) {
    CleanText(w.action) && CleanText(w.level) && (w.action.None? ==> w == CLEARED)
  }

  lemma EntryFits(cur: Slot, s: PolicyEntry, w: PolicyEntry)
    requires EntryShape(cur)
    ensures Fits(STATE_POLICY, cur, EntryEdits(s, w))
    ensures SchemaAt(STATE_POLICY, ["action"]) == Some(Leaf) && SchemaAt(STATE_POLICY, ["log"]) == Some(FLAG)
    ensures SchemaAt(STATE_POLICY, ["log-options", "level"]) == Some(Leaf)
  {
    assert ["action"][1..] == [] && ["log"][1..] == [];
    assert ["log-options", "level"][1..] == ["level"] && ["level"][1..] == [];
    assert SchemaAt(Branch(map["level" := Leaf]), ["level"]) == Some(Leaf);
    assert Walkable(Kid(cur, "log-options"), ["level"]);
  }

  lemma EntryCleared(cur: Slot, w: PolicyEntry)
    requires EntryShape(cur) && w.action.None? && ReadEntry(cur).action.Some?
    ensures
      var r := Run(STATE_POLICY, cur, [Cmd(Delete, [])]);
      && r == Applied(None) && ReadEntry(None) == CLEARED
      && Effective(STATE_POLICY, cur, [Cmd(Delete, [])])
  {
    RunOne(STATE_POLICY, cur, Cmd(Delete, []));
    GetNone(["action"]);
    GetNone(["log"]);
    GetNone(["log-options", "level"]);
  }

  lemma EntryFields(cur: Slot, w: PolicyEntry)
    requires EntryShape(cur) && CleanEntry(w) && w.action.Some?
    ensures
      var s := ReadEntry(cur);
      var r := Run(STATE_POLICY, cur, Flat(EntryEdits(s, w)));
      && r.Applied? && ReadEntry(r.slot) == w
      && Effective(STATE_POLICY, cur, Flat(EntryEdits(s, w)))
  {
    hide Run, Effective, Flat, TextCmds, FlagCmds;
    var s := ReadEntry(cur);
    var edits := EntryEdits(s, w);
    EntryFits(cur, s, w);
    TextRuns(Get(cur, ["action"]), s.action, w.action);
    FlagRuns(Get(cur, ["log"]), s.log, w.log);
    TextRuns(Get(cur, ["log-options", "level"]), s.level, w.level);
    RunEdits(STATE_POLICY, cur, edits);
    var r := Run(STATE_POLICY, cur, Flat(edits)).slot;
    assert Get(r, edits[0].at) == After(STATE_POLICY, cur, edits[0]).slot;
    assert Get(r, edits[1].at) == After(STATE_POLICY, cur, edits[1]).slot;
    assert Get(r, edits[2].at) == After(STATE_POLICY, cur, edits[2]).slot;
  }

  lemma EntryRuns(cur: Slot, w: PolicyEntry)
    requires EntryShape(cur) && CleanEntry(w)
    ensures
      var s := ReadEntry(cur);
      var r := Run(STATE_POLICY, cur, EntryCmds(s, w));
      && r.Applied? && ReadEntry(r.slot) == Left(s, w)
      && Effective(STATE_POLICY, cur, EntryCmds(s, w))
  {
    hide EntryEdits, ReadEntry;
    if w.action.Some? {
      EntryFields(cur, w);
    } else if ReadEntry(cur).action.Some? {
      EntryCleared(cur, w);
    }
  }

  lemma EntryFixpoint(s: PolicyEntry, w: PolicyEntry)
    requires CleanEntry(w)
    ensures EntryCmds(Left(s, w), w) == []
  {
    FlatEmpty(EntryEdits(w, w));
  }

  // ── the whole section ──────────────────────────────────────────────────────

  function WantedOptions(u: GlobalOptions): GlobalOptions {
    GlobalOptions(
      Wanted(u.allPing), Wanted(u.broadcastPing), Wanted(u.directedBroadcast), Wanted(u.ipSrcRoute),
      Wanted(u.ipv6SrcRoute), Wanted(u.ipv6ReceiveRedirects), Wanted(u.receiveRedirects), Wanted(u.sendRedirects),
      Wanted(u.logMartians), Wanted(u.synCookies), Wanted(u.twaHazardsProtection), Wanted(u.applyToBridge),
      Wanted(u.sourceValidation), Wanted(u.ipv6SourceValidation), u.resolverCache, Wanted(u.resolverInterval),
      WantedEntry(u.established), WantedEntry(u.related), WantedEntry(u.invalid))
  }

  function OptionPaths(): (r: seq<Path>)
    ensures |r| == 19
  {
    [["all-ping"], ["broadcast-ping"], ["directed-broadcast"], ["ip-src-route"], ["ipv6-src-route"],
     ["ipv6-receive-redirects"], ["receive-redirects"], ["send-redirects"], ["log-martians"], ["syn-cookies"],
     ["twa-hazards-protection"], ["apply-to-bridge"], ["source-validation"], ["ipv6-source-validation"],
     ["resolver-cache"], ["resolver-interval"],
     ["state-policy", "established"], ["state-policy", "related"], ["state-policy", "invalid"]]
  }

  function PlaceSchema(i: nat): Schema {
    if i == 14 then FLAG else if i < 16 then Leaf else STATE_POLICY
  }

  function TextOf(o: GlobalOptions, i: nat): Option<string>
    requires i < 16 && i != 14
  {
    if i < 14 then Singles(o)[i] else o.resolverInterval
  }

  function EntryOf(o: GlobalOptions, i: nat): PolicyEntry
    requires 16 <= i < 19
  {
    Entries(o)[i - 16]
  }

  /** The node at the `i`-th place reads as `o` says. */
  predicate PlaceReads(o: GlobalOptions, i: nat, x: Slot)
    requires i < 19
  {
    if i == 14 then x.Some? == o.resolverCache
    else if i < 16 then ReadText(x) == TextOf(o, i)
    else ReadEntry(x) == EntryOf(o, i)
  }

  function PlaceCmds(s: GlobalOptions, w: GlobalOptions, i: nat): seq<Cmd>
    requires i < 19
  {
    if i == 14 then FlagCmds(s.resolverCache, w.resolverCache)
    else if i < 16 then TextCmds(TextOf(s, i), TextOf(w, i))
    else EntryCmds(EntryOf(s, i), EntryOf(w, i))
  }

  function OptionEdits(s: GlobalOptions, w: GlobalOptions): seq<Edit> {
    seq(19, i requires 0 <= i < 19 => Edit(OptionPaths()[i], PlaceCmds(s, w, i)))
  }

  /** `diff_global_options`. */
  function DiffGlobalOptions(live: GlobalOptions, update: GlobalOptions): seq<Cmd> {
    Below(BASE, Flat(OptionEdits(live, WantedOptions(update))))
  }

  /** What the section ends as. */
  function LeftOptions(s: GlobalOptions, w: GlobalOptions): GlobalOptions {
    w.(established := Left(s.established, w.established), related := Left(s.related, w.related),
       invalid := Left(s.invalid, w.invalid))
  }

  predicate SameAt(a: GlobalOptions, b: GlobalOptions, i: nat)
    requires i < 19
  {
    if i == 14 then a.resolverCache == b.resolverCache
    else if i < 16 then TextOf(a, i) == TextOf(b, i)
    else EntryOf(a, i) == EntryOf(b, i)
  }

  lemma SameEverywhere(a: GlobalOptions, b: GlobalOptions)
    requires forall i | 0 <= i < 19 :: SameAt(a, b, i)
    ensures a == b
  {
    assert SameAt(a, b, 14) && SameAt(a, b, 15) && SameAt(a, b, 16) && SameAt(a, b, 17) && SameAt(a, b, 18);
    forall i | 0 <= i < 14
      ensures Singles(a)[i] == Singles(b)[i]
    {
      assert SameAt(a, b, i);
    }
    assert Singles(a)[0] == Singles(b)[0] && Singles(a)[1] == Singles(b)[1] && Singles(a)[2] == Singles(b)[2];
    assert Singles(a)[3] == Singles(b)[3] && Singles(a)[4] == Singles(b)[4] && Singles(a)[5] == Singles(b)[5];
    assert Singles(a)[6] == Singles(b)[6] && Singles(a)[7] == Singles(b)[7] && Singles(a)[8] == Singles(b)[8];
    assert Singles(a)[9] == Singles(b)[9] && Singles(a)[10] == Singles(b)[10] && Singles(a)[11] == Singles(b)[11];
    assert Singles(a)[12] == Singles(b)[12] && Singles(a)[13] == Singles(b)[13];
  }

  lemma GatherSingles(data: Slot, i: nat)
    requires i < 14
    ensures Singles(Gather(data))[i] == ReadText(Get(data, OptionPaths()[i]))
  {
    hide Get, ReadText, ReadEntry;
    if i < 7 {
      match i { case 0 => case 1 => case 2 => case 3 => case 4 => case 5 => case _ => }
    } else {
      LaterSingles(data, i);
    }
  }

  lemma LaterSingles(data: Slot, i: nat)
    requires 7 <= i < 14
    ensures Singles(Gather(data))[i] == ReadText(Get(data, OptionPaths()[i]))
  {
    hide Get, ReadText, ReadEntry;
    match i { case 7 => case 8 => case 9 => case 10 => case 11 => case 12 => case _ => }
  }

  lemma GatherAt(data: Slot, i: nat)
    requires i < 19
    ensures PlaceReads(Gather(data), i, Get(data, OptionPaths()[i]))
  {
    hide Get, ReadText, ReadEntry;
    if i < 14 {
      GatherSingles(data, i);
    }
  }

  lemma GathersAs(data: Slot, o: GlobalOptions)
    ensures Gather(data) == o <==> forall i | 0 <= i < 19 :: PlaceReads(o, i, Get(data, OptionPaths()[i]))
  {
    hide Gather, Get, ReadText, ReadEntry, OptionPaths;
    forall i | 0 <= i < 19
      ensures PlaceReads(o, i, Get(data, OptionPaths()[i])) <==> SameAt(Gather(data), o, i)
    {
      GatherAt(data, i);
    }
    if forall i | 0 <= i < 19 :: SameAt(Gather(data), o, i) {
      SameEverywhere(Gather(data), o);
    }
  }

  ghost predicate SectionShape(data: Slot) {
    && (data.Some? ==> data.value.Obj?)
    && (Kid(data, "state-policy").Some? ==> Kid(data, "state-policy").value.Obj?)
    && (forall st | st in STATES :: EntryShape(Get(data, ["state-policy", st])))
  }

  lemma OptionPathsApart()
    ensures forall i, j | 0 <= i < j < 19 :: Apart(OptionPaths()[i], OptionPaths()[j])
  {
  }

  lemma OptionSchema(i: nat)
    requires i < 19
    ensures SchemaAt(GLOBAL_OPTIONS, OptionPaths()[i]) == Some(PlaceSchema(i))
  {
    var p := OptionPaths()[i];
    if i < 16 {
      assert p[1..] == [];
    } else {
      assert p[1..] == [p[1]] && p[1..][1..] == [];
      assert SchemaAt(SchemaOf(GLOBAL_OPTIONS, "state-policy").value, [p[1]]) == Some(STATE_POLICY);
    }
  }

  lemma OptionWalk(data: Slot, i: nat)
    requires SectionShape(data) && i < 19
    ensures Walkable(data, OptionPaths()[i])
    ensures i >= 16 ==> EntryShape(Get(data, OptionPaths()[i]))
  {
    var p := OptionPaths()[i];
    if i < 16 {
      assert p[1..] == [];
    } else {
      assert p == ["state-policy", STATES[i - 16]] && p[1..] == [p[1]] && p[1..][1..] == [];
      assert STATES[i - 16] in STATES;
    }
  }

  ghost predicate CleanOptions(w: GlobalOptions) {
    && (forall i | 0 <= i < 16 && i != 14 :: CleanText(TextOf(w, i)))
    && (forall i | 16 <= i < 19 :: CleanEntry(EntryOf(w, i)))
  }

  lemma WantedSingle(u: GlobalOptions, i: nat)
    requires i < 14
    ensures Singles(WantedOptions(u))[i] == Wanted(Singles(u)[i])
  {
    hide Wanted, WantedEntry;
    match i {
      case 0 => case 1 => case 2 => case 3 => case 4 => case 5 => case 6 =>
      case 7 => case 8 => case 9 => case 10 => case 11 => case 12 => case _ =>
    }
  }

  lemma WantedOptionsClean(u: GlobalOptions)
    ensures CleanOptions(WantedOptions(u))
  {
    hide CleanText, CleanEntry, Wanted, WantedEntry, Singles;
    var w := WantedOptions(u);
    forall i | 0 <= i < 16 && i != 14
      ensures CleanText(TextOf(w, i))
    {
      if i < 14 {
        WantedSingle(u, i);
        WantedClean(Singles(u)[i]);
      } else {
        WantedClean(u.resolverInterval);
      }
    }
    EntryClean(u.established);
    EntryClean(u.related);
    EntryClean(u.invalid);
  }

  lemma WantedClean(field: Option<string>)
    ensures CleanText(Wanted(field))
  {
  }

  lemma EntryClean(e: PolicyEntry)
    ensures CleanEntry(WantedEntry(e))
  {
  }

  lemma PlaceRuns(here: Slot, s: GlobalOptions, w: GlobalOptions, i: nat)
    requires i < 19 && PlaceReads(s, i, here) && CleanOptions(w) && (i >= 16 ==> EntryShape(here))
    ensures
      var r := Run(PlaceSchema(i), here, PlaceCmds(s, w, i));
      && r.Applied? && PlaceReads(LeftOptions(s, w), i, r.slot)
      && Effective(PlaceSchema(i), here, PlaceCmds(s, w, i))
  {
    if i == 14 {
      FlagRuns(here, s.resolverCache, w.resolverCache);
    } else if i < 16 {
      TextRuns(here, TextOf(s, i), TextOf(w, i));
    } else {
      EntryRuns(here, EntryOf(w, i));
    }
  }

  /** The nineteen edits, whatever the schema around their places. */
  lemma RunOptions(schema: Schema, data: Slot, edits: seq<Edit>, s: GlobalOptions, w: GlobalOptions)
    requires Fits(schema, data, edits) && |edits| == 19 && CleanOptions(w)
    requires forall i | 0 <= i < 19 ::
               && edits[i].cmds == PlaceCmds(s, w, i)
               && SchemaAt(schema, edits[i].at) == Some(PlaceSchema(i))
               && PlaceReads(s, i, Get(data, edits[i].at))
               && (i >= 16 ==> EntryShape(Get(data, edits[i].at)))
    ensures
      var r := Run(schema, data, Flat(edits));
      && r.Applied?
      && (forall i | 0 <= i < 19 :: PlaceReads(LeftOptions(s, w), i, Get(r.slot, edits[i].at)))
      && (forall q | ApartFromAll(q, edits) :: Get(r.slot, q) == Get(data, q))
      && Effective(schema, data, Flat(edits))
  {
    hide PlaceReads, PlaceCmds, LeftOptions, CleanOptions, EntryShape, PlaceSchema;
    forall i | 0 <= i < 19
      ensures After(schema, data, edits[i]).Applied?
      ensures PlaceReads(LeftOptions(s, w), i, After(schema, data, edits[i]).slot)
      ensures Effective(SchemaAt(schema, edits[i].at).value, Get(data, edits[i].at), edits[i].cmds)
    {
      PlaceRuns(Get(data, edits[i].at), s, w, i);
    }
    RunEdits(schema, data, edits);
    var r := Run(schema, data, Flat(edits)).slot;
    forall i | 0 <= i < 19
      ensures PlaceReads(LeftOptions(s, w), i, Get(r, edits[i].at))
    {
      assert Get(r, edits[i].at) == After(schema, data, edits[i]).slot;
    }
  }

  lemma OptionsRun(data: Slot, w: GlobalOptions)
    requires SectionShape(data) && CleanOptions(w)
    ensures
      var s := Gather(data);
      var cs := Flat(OptionEdits(s, w));
      var r := Run(GLOBAL_OPTIONS, data, cs);
      && r.Applied? && Gather(r.slot) == LeftOptions(s, w)
      && (forall q | ApartFromOptions(q) :: Get(r.slot, q) == Get(data, q))
      && Effective(GLOBAL_OPTIONS, data, cs)
  {
    hide Gather, PlaceReads, PlaceCmds, LeftOptions, CleanOptions, SectionShape, EntryShape;
    var s := Gather(data);
    var edits := OptionEdits(s, w);
    GathersAs(data, s);
    OptionPathsApart();
    forall i | 0 <= i < 19
      ensures edits[i].at == OptionPaths()[i] && Walkable(data, edits[i].at)
      ensures SchemaAt(GLOBAL_OPTIONS, edits[i].at) == Some(PlaceSchema(i))
      ensures i >= 16 ==> EntryShape(Get(data, edits[i].at))
    {
      OptionSchema(i);
      OptionWalk(data, i);
    }
    RunOptions(GLOBAL_OPTIONS, data, edits, s, w);
    var r := Run(GLOBAL_OPTIONS, data, Flat(edits)).slot;
    GathersAs(r, LeftOptions(s, w));
    forall q | ApartFromOptions(q)
      ensures ApartFromAll(q, edits)
    {
    }
  }

  ghost predicate ApartFromOptions(q: Path) {
    forall i | 0 <= i < 19 :: Apart(OptionPaths()[i], q)
  }

  // ── in the tree ────────────────────────────────────────────────────────────

  lemma SectionSchema()
    ensures SchemaAt(DEVICE, BASE) == Some(GLOBAL_OPTIONS)
  {
    assert BASE[1..] == ["global-options"] && ["global-options"][1..] == [];
    assert SchemaAt(Branch(map["global-options" := GLOBAL_OPTIONS]), ["global-options"]) == Some(GLOBAL_OPTIONS);
  }

  /** Committing the diff: every option reads as wanted, and nothing else in the tree changes. */
  lemma DiffGlobalOptionsCorrect(cfg: Slot, update: GlobalOptions)
    requires Walkable(cfg, BASE) && SectionShape(Get(cfg, BASE))
    ensures
      var live, w := Gather(Get(cfg, BASE)), WantedOptions(update);
      var cs := DiffGlobalOptions(live, update);
      var r := Run(DEVICE, cfg, cs);
      && r.Applied?
      && Gather(Get(r.slot, BASE)) == LeftOptions(live, w)
      && (forall q | Apart(BASE, q) ::
            Get(r.slot, q) == Get(cfg, q) && (Walkable(cfg, q) ==> Walkable(r.slot, q)))
      && (forall q | ApartFromOptions(q) :: Get(Get(r.slot, BASE), q) == Get(Get(cfg, BASE), q))
      && Effective(DEVICE, cfg, cs)
  {
    hide Gather, LeftOptions, OptionEdits, SectionShape, WantedOptions, Get, ApartFromOptions;
    var data, w := Get(cfg, BASE), WantedOptions(update);
    SectionSchema();
    WantedOptionsClean(update);
    OptionsRun(data, w);
    RunBelow(DEVICE, cfg, BASE, Flat(OptionEdits(Gather(data), w)));
  }

  /** The live log settings a cleared action would leave behind. */
  predicate ClearsCleanly(live: PolicyEntry, w: PolicyEntry) {
    w.action.Some? || live.action.Some? || (!live.log && live.level.None?)
  }

  lemma LeftExactlyIff(live: GlobalOptions, w: GlobalOptions)
    requires CleanOptions(w)
    ensures LeftOptions(live, w) == w <==>
            forall i | 0 <= i < 3 :: ClearsCleanly(Entries(live)[i], Entries(w)[i])
  {
    assert CleanEntry(EntryOf(w, 16)) && CleanEntry(EntryOf(w, 17)) && CleanEntry(EntryOf(w, 18));
    assert Entries(live)[0] == live.established && Entries(live)[1] == live.related && Entries(live)[2] == live.invalid;
    assert Entries(w)[0] == w.established && Entries(w)[1] == w.related && Entries(w)[2] == w.invalid;
    assert forall s: PolicyEntry, e: PolicyEntry | CleanEntry(e) :: Left(s, e) == e <==> ClearsCleanly(s, e);
  }

  /**
   The committed tree reads exactly as the form asked if and only if no state whose action is to be cleared has a log
   or level in the live tree without an action.
   */
  lemma ClearedExactlyIff(cfg: Slot, update: GlobalOptions)
    requires Walkable(cfg, BASE) && SectionShape(Get(cfg, BASE))
    ensures
      var live, w := Gather(Get(cfg, BASE)), WantedOptions(update);
      var r := Run(DEVICE, cfg, DiffGlobalOptions(live, update));
      && r.Applied?
      && (Gather(Get(r.slot, BASE)) == w <==>
            forall i | 0 <= i < 3 :: ClearsCleanly(Entries(live)[i], Entries(w)[i]))
  {
    hide Gather, LeftOptions, SectionShape, WantedOptions, Get, Run, DiffGlobalOptions, ClearsCleanly, CleanOptions;
    WantedOptionsClean(update);
    DiffGlobalOptionsCorrect(cfg, update);
    LeftExactlyIff(Gather(Get(cfg, BASE)), WantedOptions(update));
  }

  /** `state-policy established log` and nothing else. */
  const LONE_LOG: Slot := Some(Obj(map["state-policy" := Obj(map["established" := Obj(map["log" := Obj(map[])])])]))

  /** A form that leaves every field blank. */
  const NOTHING := GlobalOptions(
    None, None, None, None, None, None, None, None, None, None, None, None, None, None, false, None,
    CLEARED, CLEARED, CLEARED)

  /** A live log without an action survives a form that clears the action. */
  lemma LogWithoutActionSurvives()
    ensures
      var cfg := Put(None, BASE, LONE_LOG);
      var r := Run(DEVICE, cfg, DiffGlobalOptions(Gather(Get(cfg, BASE)), NOTHING));
      && r.Applied?
      && Gather(Get(r.slot, BASE)) != WantedOptions(NOTHING)
      && Gather(Get(r.slot, BASE)).established == PolicyEntry(None, true, None)
  {
    hide Run, DiffGlobalOptions;
    var cfg := Put(None, BASE, LONE_LOG);
    GetPut(None, BASE, LONE_LOG);
    LoneLogReads();
    assert WantedOptions(NOTHING).established == CLEARED;
    DiffGlobalOptionsCorrect(cfg, NOTHING);
  }

  lemma LoneLogReads()
    ensures SectionShape(LONE_LOG) && Gather(LONE_LOG).established == PolicyEntry(None, true, None)
  {
    hide ReadText;
    var entry := Get(LONE_LOG, ["state-policy", "established"]);
    assert ["state-policy", "established"][1..] == ["established"] && ["established"][1..] == [];
    assert entry == Some(Obj(map["log" := Obj(map[])]));
    forall st | st in STATES
      ensures EntryShape(Get(LONE_LOG, ["state-policy", st]))
    {
      assert ["state-policy", st][1..] == [st] && [st][1..] == [];
      var policy := Some(Kids(LONE_LOG)["state-policy"]);
      assert Get(LONE_LOG, ["state-policy", st]) == Get(policy, [st]) == Kid(policy, st);
    }
    assert ["log"][1..] == [] && ["action"][1..] == [] && ["log-options", "level"][1..] == ["level"];
    GetNone([]);
    GetNone(["level"]);
    assert Get(entry, ["log"]).Some? && Get(entry, ["action"]).None? && Get(entry, ["log-options", "level"]).None?;
    assert ReadText(None) == None;
  }

  /** Diffing the committed section again asks for nothing. */
  lemma DiffGlobalOptionsFixpoint(live: GlobalOptions, update: GlobalOptions)
    ensures DiffGlobalOptions(LeftOptions(live, WantedOptions(update)), update) == []
  {
    var w := WantedOptions(update);
    var s := LeftOptions(live, w);
    WantedOptionsClean(update);
    forall i | 0 <= i < 19
      ensures PlaceCmds(s, w, i) == []
    {
      if i >= 16 {
        assert CleanEntry(EntryOf(w, i));
        EntryFixpoint(EntryOf(live, i), EntryOf(w, i));
        assert EntryOf(s, i) == Left(EntryOf(live, i), EntryOf(w, i));
      } else if i < 14 {
        assert Singles(s)[i] == Singles(w)[i];
      }
    }
    FlatEmpty(OptionEdits(s, w));
  }
}
