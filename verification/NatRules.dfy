/** NAT44 rules: reading one, diffing one against a form, and what committing the diff yields. */
module NatRules {
  import opened Options
  import opened Text
  import opened ConfigTree
  import opened Fields
  import opened Edits
  import opened DeviceSchema

  /** The form's fields (`Nat44RuleUpdate`). */
  datatype RuleUpdate = RuleUpdate(
    section: string, rule: u32, description: Option<string>, interface: Option<string>, interfaceGroup: bool,
    sourceAddress: Option<string>, sourcePort: Option<string>,
    destinationAddress: Option<string>, destinationPort: Option<string>,
    translationAddress: Option<string>, translationPort: Option<string>,
    protocol: Option<string>, exclude: bool, log: bool, enabled: bool, originalRule: Option<u32>)

  /** The same fields as they read from a rule's node. */
  datatype RuleRecord = RuleRecord(
    description: Option<string>, sourceAddress: Option<string>, sourcePort: Option<string>,
    destinationAddress: Option<string>, destinationPort: Option<string>, protocol: Option<string>,
    translationAddress: Option<string>, translationPort: Option<string>,
    interface: Option<string>, interfaceGroup: bool, exclude: bool, log: bool, enabled: bool)

  predicate ValidSection(section: string) {
    section == "source" || section == "destination"
  }

  function InterfaceKey(section: string): string {
    if section == "source" then "outbound-interface" else "inbound-interface"
  }

  function RuleBase(section: string, rule: u32): Path {
    ["nat", section, "rule", PrintInt(rule)]
  }

  // ── reading ────────────────────────────────────────────────────────────────

  /** `<key> name <x>`, else `<key> group <x>`, else the bare 1.3 form `<key> <x>`. */
  function ReadInterface(cur: Slot): (Option<string>, bool) {
    if ReadText(Kid(cur, "name")).Some? then (ReadText(Kid(cur, "name")), false)
    else if ReadText(Kid(cur, "group")).Some? then (ReadText(Kid(cur, "group")), true)
    else (ReadText(cur), false)
  }

  function ReadRule(key: string, cur: Slot): RuleRecord {
    RuleRecord(
      ReadText(Get(cur, ["description"])),
      ReadText(Get(cur, ["source", "address"])), ReadText(Get(cur, ["source", "port"])),
      ReadText(Get(cur, ["destination", "address"])), ReadText(Get(cur, ["destination", "port"])),
      ReadText(Get(cur, ["protocol"])),
      ReadText(Get(cur, ["translation", "address"])), ReadText(Get(cur, ["translation", "port"])),
      ReadInterface(Get(cur, [key])).0, ReadInterface(Get(cur, [key])).1,
      Get(cur, ["exclude"]).Some?, Get(cur, ["log"]).Some?, Get(cur, ["disable"]).None?)
  }

  /** What the form asks for: text trimmed, blanks unset, a group flag only with an interface. */
  function WantedRule(body: RuleUpdate): RuleRecord {
    RuleRecord(
      Wanted(body.description), Wanted(body.sourceAddress), Wanted(body.sourcePort),
      Wanted(body.destinationAddress), Wanted(body.destinationPort), Wanted(body.protocol),
      Wanted(body.translationAddress), Wanted(body.translationPort),
      Wanted(body.interface), body.interfaceGroup && Wanted(body.interface).Some?,
      body.exclude, body.log, body.enabled)
  }

  ghost predicate CleanRecord(w: RuleRecord) {
    && CleanText(w.description) && CleanText(w.sourceAddress) && CleanText(w.sourcePort)
    && CleanText(w.destinationAddress) && CleanText(w.destinationPort) && CleanText(w.protocol)
    && CleanText(w.translationAddress) && CleanText(w.translationPort) && CleanText(w.interface)
    && (w.interfaceGroup ==> w.interface.Some?)
  }

  /** The shape the reader and the commands walk: objects on the way, an interface in one of its three forms. */
  ghost predicate WellFormedRule(key: string, cur: Slot) {
    && (cur.Some? ==> cur.value.Obj?)
    && (forall k | k in {"source", "destination", "translation"} :: Kid(cur, k).Some? ==> Kid(cur, k).value.Obj?)
    && (Kid(cur, key).Some? ==> Kid(cur, key).value.Obj? || ReadText(Kid(cur, key)).Some?)
  }

  // ── the diff ───────────────────────────────────────────────────────────────

  /** A changed interface drops whatever form is there before the new form is set. */
  function InterfaceCmds(seen: (Option<string>, bool), want: Option<string>, group: bool): seq<Cmd> {
    if (want, group) == seen then []
    else
      (if seen.0.Some? then [Cmd(Delete, [])] else []) +
      (if want.Some? then [Cmd(Set, [if group then "group" else "name", want.value])] else [])
  }

  lemma SetInterface(cur: Slot, kind: string, v: string)
    requires kind == "name" || kind == "group"
    ensures SetAt(INTERFACE, cur, [kind, v]) ==
            if cur.None? || cur.value.Obj? then Some(Obj(Kids(cur)[kind := Str(v)])) else None
  {
    assert [kind, v][1..] == [v];
    assert SetAt(Leaf, Kid(cur, kind), [v]) == Some(Str(v));
  }

  lemma InterfaceRuns(cur: Slot, want: Option<string>, group: bool)
    requires CleanText(want) && (group ==> want.Some?)
    requires cur.Some? ==> cur.value.Obj? || ReadText(cur).Some?
    ensures
      var cs := InterfaceCmds(ReadInterface(cur), want, group);
      var r := Run(INTERFACE, cur, cs);
      && r.Applied? && ReadInterface(r.slot) == (want, group) && (want.Some? ==> r.slot.Some?)
      && Effective(INTERFACE, cur, cs)
      && (r.slot.Some? ==> r.slot.value.Obj? || ReadText(r.slot).Some?)
  {
    var seen := ReadInterface(cur);
    var drop := if seen.0.Some? then [Cmd(Delete, [])] else [];
    var mid := if seen.0.Some? then None else cur;
    if seen != (want, group) {
      RunOne(INTERFACE, cur, Cmd(Delete, []));
      if want.Some? {
        var kind := if group then "group" else "name";
        SetInterface(mid, kind, want.value);
        RunOne(INTERFACE, mid, Cmd(Set, [kind, want.value]));
        RunAppend(INTERFACE, cur, drop, [Cmd(Set, [kind, want.value])]);
      } else {
        assert InterfaceCmds(seen, want, group) == drop;
      }
    }
  }

  predicate ValidKey(key: string) {
    key == "outbound-interface" || key == "inbound-interface"
  }

  function RulePaths(key: string): (r: seq<Path>)
    ensures |r| == 12
  {
    [["description"], ["source", "address"], ["source", "port"], ["destination", "address"],
     ["destination", "port"], ["protocol"], ["translation", "address"], ["translation", "port"],
     [key], ["exclude"], ["log"], ["disable"]]
  }

  lemma RulePath(key: string, cur: Slot, a: string, b: string)
    requires ValidKey(key) && WellFormedRule(key, cur)
    ensures Walkable(cur, [a]) && SchemaAt(NatRule(key), [a]) == SchemaOf(NatRule(key), a)
    ensures a in {"source", "destination", "translation"} && b in {"address", "port"} ==>
              Walkable(cur, [a, b]) && SchemaAt(NatRule(key), [a, b]) == Some(Leaf)
  {
    assert [a][1..] == [] && [a, b][1..] == [b] && [b][1..] == [];
    if a in {"source", "destination", "translation"} && b in {"address", "port"} {
      assert SchemaOf(NatRule(key), a) == Some(MATCH);
      assert SchemaOf(MATCH, b) == Some(Leaf);
      assert SchemaAt(MATCH, [b]) == Some(Leaf);
    }
  }

  lemma RulePlace(key: string, cur: Slot, i: nat)
    requires ValidKey(key) && WellFormedRule(key, cur) && i < 12
    ensures Walkable(cur, RulePaths(key)[i])
    ensures SchemaAt(NatRule(key), RulePaths(key)[i]) ==
            Some(if i < 8 then Leaf else if i == 8 then INTERFACE else FLAG)
  {
    hide WellFormedRule, Walkable, SchemaAt;
    match i {
      case 0 => RulePath(key, cur, "description", "");
      case 1 => RulePath(key, cur, "source", "address");
      case 2 => RulePath(key, cur, "source", "port");
      case 3 => RulePath(key, cur, "destination", "address");
      case 4 => RulePath(key, cur, "destination", "port");
      case 5 => RulePath(key, cur, "protocol", "");
      case 6 => RulePath(key, cur, "translation", "address");
      case 7 => RulePath(key, cur, "translation", "port");
      case 8 => RulePath(key, cur, key, "");
      case 9 => RulePath(key, cur, "exclude", "");
      case 10 => RulePath(key, cur, "log", "");
      case _ => RulePath(key, cur, "disable", "");
    }
  }

  lemma RulePlaces(key: string, cur: Slot)
    requires ValidKey(key) && WellFormedRule(key, cur)
    ensures forall i | 0 <= i < 12 :: Walkable(cur, RulePaths(key)[i])
    ensures forall i | 0 <= i < 12 ::
              SchemaAt(NatRule(key), RulePaths(key)[i]) ==
              Some(if i < 8 then Leaf else if i == 8 then INTERFACE else FLAG)
  {
    hide WellFormedRule, Walkable, SchemaAt, RulePaths;
    forall i | 0 <= i < 12 {
      RulePlace(key, cur, i);
    }
  }

  lemma RulePathsApart(key: string)
    requires ValidKey(key)
    ensures forall i, j | 0 <= i < j < 12 :: Apart(RulePaths(key)[i], RulePaths(key)[j])
  {
  }

  /** The `i`-th text leaf of a record. */
  function TextOf(w: RuleRecord, i: nat): Option<string>
    requires i < 8
  {
    [w.description, w.sourceAddress, w.sourcePort, w.destinationAddress, w.destinationPort, w.protocol,
     w.translationAddress, w.translationPort][i]
  }

  function FlagOf(w: RuleRecord, i: nat): bool
    requires 9 <= i < 12
  {
    if i == 9 then w.exclude else if i == 10 then w.log else !w.enabled
  }

  /** The node at the rule's `i`-th place reads as `w` says. */
  predicate PlaceReads(w: RuleRecord, i: nat, x: Slot)
    requires i < 12
  {
    if i < 8 then ReadText(x) == TextOf(w, i)
    else if i == 8 then ReadInterface(x) == (w.interface, w.interfaceGroup)
    else x.Some? == FlagOf(w, i)
  }

  lemma ReadsAt(key: string, cur: Slot, i: nat)
    requires i < 12
    ensures PlaceReads(ReadRule(key, cur), i, Get(cur, RulePaths(key)[i]))
  {
    hide Get, ReadText, ReadInterface;
  }

  /** Two records that agree at every place are the same. */
  lemma SameRecord(a: RuleRecord, b: RuleRecord)
    requires forall i | 0 <= i < 8 :: TextOf(a, i) == TextOf(b, i)
    requires a.interface == b.interface && a.interfaceGroup == b.interfaceGroup
    requires forall i | 9 <= i < 12 :: FlagOf(a, i) == FlagOf(b, i)
    ensures a == b
  {
    assert TextOf(a, 0) == TextOf(b, 0) && TextOf(a, 1) == TextOf(b, 1) && TextOf(a, 2) == TextOf(b, 2);
    assert TextOf(a, 3) == TextOf(b, 3) && TextOf(a, 4) == TextOf(b, 4) && TextOf(a, 5) == TextOf(b, 5);
    assert TextOf(a, 6) == TextOf(b, 6) && TextOf(a, 7) == TextOf(b, 7);
    assert FlagOf(a, 9) == FlagOf(b, 9) && FlagOf(a, 10) == FlagOf(b, 10) && FlagOf(a, 11) == FlagOf(b, 11);
  }

  lemma ReadsAs(key: string, cur: Slot, w: RuleRecord)
    ensures ReadRule(key, cur) == w <==> forall i | 0 <= i < 12 :: PlaceReads(w, i, Get(cur, RulePaths(key)[i]))
  {
    hide Get, ReadText, ReadInterface, ReadRule, RulePaths, TextOf, FlagOf;
    var r := ReadRule(key, cur);
    forall i | 0 <= i < 12
      ensures PlaceReads(r, i, Get(cur, RulePaths(key)[i]))
    {
      ReadsAt(key, cur, i);
    }
    if forall i | 0 <= i < 12 :: PlaceReads(w, i, Get(cur, RulePaths(key)[i])) {
      assert PlaceReads(w, 8, Get(cur, RulePaths(key)[8])) && PlaceReads(r, 8, Get(cur, RulePaths(key)[8]));
      forall i | 0 <= i < 8
        ensures TextOf(r, i) == TextOf(w, i)
      {
        assert PlaceReads(w, i, Get(cur, RulePaths(key)[i]));
      }
      forall i | 9 <= i < 12
        ensures FlagOf(r, i) == FlagOf(w, i)
      {
        assert PlaceReads(w, i, Get(cur, RulePaths(key)[i]));
      }
      SameRecord(r, w);
    }
  }

  /** The command list for the rule's `i`-th place. */
  function PlaceCmds(s: RuleRecord, w: RuleRecord, i: nat): seq<Cmd>
    requires i < 12
  {
    if i < 8 then TextCmds(TextOf(s, i), TextOf(w, i))
    else if i == 8 then InterfaceCmds((s.interface, s.interfaceGroup), w.interface, w.interfaceGroup)
    else FlagCmds(FlagOf(s, i), FlagOf(w, i))
  }

  /** The twelve places of a rule, in the order the diff visits them. */
  function RuleEdits(key: string, s: RuleRecord, w: RuleRecord): (edits: seq<Edit>)
    ensures |edits| == 12 && forall i | 0 <= i < 12 :: edits[i] == Edit(RulePaths(key)[i], PlaceCmds(s, w, i))
  {
    seq(12, i requires 0 <= i < 12 => Edit(RulePaths(key)[i], PlaceCmds(s, w, i)))
  }

  lemma RuleFits(key: string, cur: Slot, s: RuleRecord, w: RuleRecord)
    requires ValidKey(key) && WellFormedRule(key, cur)
    ensures Fits(NatRule(key), cur, RuleEdits(key, s, w))
  {
    RulePlaces(key, cur);
    RulePathsApart(key);
  }

  /** The commands that turn the rule node `cur` into `w`, below the rule's own node. */
  function RuleCmds(key: string, cur: Slot, w: RuleRecord): seq<Cmd> {
    RecordCmds(cur.None?, RuleEdits(key, ReadRule(key, cur), w))
  }

  ghost predicate ApartFromRule(key: string, q: Path) {
    q != [] && forall i | 0 <= i < 12 :: Apart(RulePaths(key)[i], q)
  }

  function PlaceSchema(i: nat): Schema {
    if i < 8 then Leaf else if i == 8 then INTERFACE else FLAG
  }

  ghost predicate PlaceShape(i: nat, here: Slot) {
    i == 8 && here.Some? ==> here.value.Obj? || ReadText(here).Some?
  }

  lemma PlaceRuns(here: Slot, s: RuleRecord, w: RuleRecord, i: nat)
    requires i < 12 && PlaceReads(s, i, here) && PlaceShape(i, here) && CleanRecord(w)
    ensures
      var cs := PlaceCmds(s, w, i);
      var r := Run(PlaceSchema(i), here, cs);
      && r.Applied? && PlaceReads(w, i, r.slot) && Effective(PlaceSchema(i), here, cs)
      && (here.None? && cs != [] ==> r.slot.Some?)
  {
    if i < 8 {
      assert CleanText(TextOf(w, i));
      TextRuns(here, TextOf(s, i), TextOf(w, i));
    } else if i == 8 {
      InterfaceRuns(here, w.interface, w.interfaceGroup);
    } else {
      FlagRuns(here, FlagOf(s, i), FlagOf(w, i));
    }
  }

  /** The edits run at their places, whatever the record around them. */
  lemma RunPlaces(schema: Schema, cur: Slot, edits: seq<Edit>, s: RuleRecord, w: RuleRecord)
    requires schema.Branch? && Fits(schema, cur, edits) && |edits| == 12 && CleanRecord(w)
    requires forall i | 0 <= i < 12 ::
               && edits[i].at != [] && edits[i].cmds == PlaceCmds(s, w, i)
               && SchemaAt(schema, edits[i].at) == Some(PlaceSchema(i))
               && PlaceReads(s, i, Get(cur, edits[i].at)) && PlaceShape(i, Get(cur, edits[i].at))
    ensures
      var cs := RecordCmds(cur.None?, edits);
      var r := Run(schema, cur, cs);
      && r.Applied? && r.slot.Some?
      && (forall i | 0 <= i < 12 :: PlaceReads(w, i, Get(r.slot, edits[i].at)))
      && (forall q | q != [] && ApartFromAll(q, edits) :: Get(r.slot, q) == Get(cur, q))
      && Effective(schema, cur, cs)
  {
    forall i | 0 <= i < 12
      ensures After(schema, cur, edits[i]).Applied?
      ensures PlaceReads(w, i, After(schema, cur, edits[i]).slot)
      ensures cur.None? && edits[i].cmds != [] ==> After(schema, cur, edits[i]).slot.Some?
      ensures Effective(SchemaAt(schema, edits[i].at).value, Get(cur, edits[i].at), edits[i].cmds)
    {
      GetNone(edits[i].at);
      PlaceRuns(Get(cur, edits[i].at), s, w, i);
    }
    RecordRuns(schema, cur, cur.None?, edits);
    var r := Run(schema, cur, RecordCmds(cur.None?, edits)).slot;
    forall i | 0 <= i < 12
      ensures PlaceReads(w, i, Get(r, edits[i].at))
    {
      assert Get(r, edits[i].at) == After(schema, cur, edits[i]).slot;
    }
  }

  /** Running a rule's diff on its node makes the node read as wanted, and touches nothing else in it. */
  lemma RuleRuns(key: string, cur: Slot, w: RuleRecord)
    requires ValidKey(key) && WellFormedRule(key, cur) && CleanRecord(w)
    ensures
      var r := Run(NatRule(key), cur, RuleCmds(key, cur, w));
      && r.Applied? && r.slot.Some?
      && ReadRule(key, r.slot) == w
      && (forall q | ApartFromRule(key, q) :: Get(r.slot, q) == Get(cur, q))
    ensures Effective(NatRule(key), cur, RuleCmds(key, cur, w))
  {
    var s := ReadRule(key, cur);
    var edits := RuleEdits(key, s, w);
    RuleFits(key, cur, s, w);
    RulePlaces(key, cur);
    ReadsAs(key, cur, s);
    RunPlaces(NatRule(key), cur, edits, s, w);
    var r := Run(NatRule(key), cur, RuleCmds(key, cur, w)).slot;
    assert forall i | 0 <= i < 12 :: PlaceReads(w, i, Get(r, edits[i].at)) && edits[i].at == RulePaths(key)[i];
    ReadsAs(key, r, w);
    forall q | ApartFromRule(key, q)
      ensures Get(r, q) == Get(cur, q)
    {
      assert ApartFromAll(q, edits);
    }
  }

  // ── the whole tree ─────────────────────────────────────────────────────────

  predicate Moved(body: RuleUpdate) {
    body.originalRule.Some? && body.originalRule.value != body.rule
  }

  function FormerBase(body: RuleUpdate): Path
    requires body.originalRule.Some?
  {
    RuleBase(body.section, body.originalRule.value)
  }

  /** `diff_nat44` against the live `nat` subtree: a renumber drops the old rule and builds the new one fresh. */
  function DiffNat44(natTree: Slot, body: RuleUpdate): seq<Cmd> {
    var key := InterfaceKey(body.section);
    var live := if Moved(body) then None else Get(natTree, [body.section, "rule", PrintInt(body.rule)]);
    var cs := RuleCmds(key, live, WantedRule(body));
    if Moved(body) then MoveCmds(FormerBase(body), RuleBase(body.section, body.rule), cs)
    else Below(RuleBase(body.section, body.rule), cs)
  }

  lemma LiveRule(cfg: Slot, section: string, rule: u32)
    ensures Get(Get(cfg, ["nat"]), [section, "rule", PrintInt(rule)]) == Get(cfg, RuleBase(section, rule))
  {
    assert ["nat"] + [section, "rule", PrintInt(rule)] == RuleBase(section, rule);
    GetSplit(cfg, ["nat"], [section, "rule", PrintInt(rule)]);
  }

  lemma RuleSchema(section: string, rule: u32)
    requires ValidSection(section)
    ensures SchemaAt(DEVICE, RuleBase(section, rule)) == Some(NatRule(InterfaceKey(section)))
  {
    var num := PrintInt(rule);
    assert RuleBase(section, rule)[1..] == [section, "rule", num];
    assert [section, "rule", num][1..] == ["rule", num] && ["rule", num][1..] == [num] && [num][1..] == [];
    var rules := Tag(NatRule(InterfaceKey(section)));
    assert SchemaAt(rules, [num]) == Some(NatRule(InterfaceKey(section)));
    assert SchemaAt(Branch(map["rule" := rules]), ["rule", num]) == SchemaAt(rules, [num]);
  }

  /** Distinct rules live at separate places. */
  lemma RulesApart(section: string, a: u32, section': string, b: u32)
    requires section != section' || a != b
    ensures Apart(RuleBase(section, a), RuleBase(section', b))
  {
    if PrintInt(a) == PrintInt(b) {
      PrintIntInjective(a, b);
    }
    var p, q := RuleBase(section, a), RuleBase(section', b);
    assert p[1..][0] == section && q[1..][0] == section';
    assert p[1..][1..][1..] == [PrintInt(a)] && q[1..][1..][1..] == [PrintInt(b)];
    if section == section' {
      assert Apart(p[1..][1..][1..], q[1..][1..][1..]);
      assert Apart(p[1..][1..], q[1..][1..]);
    }
    assert Apart(p[1..], q[1..]);
  }

  /** What the diff takes for granted about the place of one rule. */
  ghost predicate WellFormedAt(cfg: Slot, section: string, rule: u32) {
    Walkable(cfg, RuleBase(section, rule)) && WellFormedRule(InterfaceKey(section), Get(cfg, RuleBase(section, rule)))
  }

  lemma WantedClean(body: RuleUpdate)
    ensures CleanRecord(WantedRule(body))
  {
  }

  /**
   Committing a rule's diff makes the rule exist and read back as the form asked, whatever interface form
   was live; a renumber onto a free number also removes the old rule; nothing else in the tree changes.
   */
  lemma DiffNat44Correct(cfg: Slot, body: RuleUpdate)
    requires ValidSection(body.section) && WellFormedAt(cfg, body.section, body.rule)
    requires Moved(body) ==>
               Get(cfg, RuleBase(body.section, body.rule)).None? && Walkable(cfg, FormerBase(body))
    ensures
      var cs := DiffNat44(Get(cfg, ["nat"]), body);
      var base := RuleBase(body.section, body.rule);
      var r := Run(DEVICE, cfg, cs);
      && r.Applied?
      && Get(r.slot, base).Some?
      && ReadRule(InterfaceKey(body.section), Get(r.slot, base)) == WantedRule(body)
      && (Moved(body) ==> Get(r.slot, FormerBase(body)).None?)
      && (forall q | Apart(base, q) && (Moved(body) ==> Apart(FormerBase(body), q)) ::
            Get(r.slot, q) == Get(cfg, q) && (Walkable(cfg, q) ==> Walkable(r.slot, q)))
      && (forall q | ApartFromRule(InterfaceKey(body.section), q) ::
            Get(Get(r.slot, base), q) == Get(Get(cfg, base), q))
      && ((Moved(body) ==> Get(cfg, FormerBase(body)).Some?) ==> Effective(DEVICE, cfg, cs))
  {
    hide ReadRule, WellFormedRule, WantedRule, Run, Effective, CleanRecord, RuleCmds, NatRule, Apart, ApartFromRule, Get;
    var key, base, w := InterfaceKey(body.section), RuleBase(body.section, body.rule), WantedRule(body);
    LiveRule(cfg, body.section, body.rule);
    RuleSchema(body.section, body.rule);
    WantedClean(body);
    var live := Get(cfg, base);
    RuleRuns(key, live, w);
    if Moved(body) {
      RulesApart(body.section, body.originalRule.value, body.section, body.rule);
      RuleSchema(body.section, body.originalRule.value);
      RunMove(DEVICE, cfg, FormerBase(body), base, RuleCmds(key, None, w));
    } else {
      RunBelow(DEVICE, cfg, base, RuleCmds(key, live, w));
    }
  }

  /** Diffing the committed tree again asks for nothing. */
  lemma DiffNat44Fixpoint(cfg: Slot, body: RuleUpdate)
    requires Get(cfg, RuleBase(body.section, body.rule)).Some?
    requires ReadRule(InterfaceKey(body.section), Get(cfg, RuleBase(body.section, body.rule))) == WantedRule(body)
    ensures DiffNat44(Get(cfg, ["nat"]), body.(originalRule := None)) == []
  {
    var key, w := InterfaceKey(body.section), WantedRule(body);
    LiveRule(cfg, body.section, body.rule);
    assert WantedRule(body.(originalRule := None)) == w;
    FlatEmpty(RuleEdits(key, w, w));
  }
}
