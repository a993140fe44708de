/**
 Renumbering a NAT rule onto a number that is already in use. The diff rebuilds the target against an
 empty node and does not look at what is there; this is exactly when the outcome is still right.
 */
module NatRenumber {
  import opened Options
  import opened Text
  import opened ConfigTree
  import opened Fields
  import opened Edits
  import opened DeviceSchema
  import opened NatRules

  /** What stands at a place neither blocks the new value nor survives beside it. */
  predicate Yields(w: RuleRecord, i: nat, here: Slot)
    requires i < 12
  {
    if i < 8 then TextOf(w, i).Some? || ReadText(here).None?
    else if i == 8 then
      if w.interface.None? then ReadInterface(here).0.None?
      else (here.None? || here.value.Obj?) && (w.interfaceGroup ==> ReadText(Kid(here, "name")).None?)
    else FlagOf(w, i) || here.None?
  }

  /** The live target clashes with nothing the form leaves unset or sets differently. */
  predicate TargetYields(key: string, target: Slot, w: RuleRecord) {
    forall i | 0 <= i < 12 :: Yields(w, i, Get(target, RulePaths(key)[i]))
  }

  lemma PlaceOver(here: Slot, s: RuleRecord, w: RuleRecord, i: nat)
    requires i < 12 && PlaceReads(s, i, None) && PlaceShape(i, here) && CleanRecord(w)
    ensures
      var r := Run(PlaceSchema(i), here, PlaceCmds(s, w, i));
      (r.Applied? && PlaceReads(w, i, r.slot)) <==> Yields(w, i, here)
    ensures
      var r := Run(PlaceSchema(i), here, PlaceCmds(s, w, i));
      PlaceCmds(s, w, i) != [] && r.Applied? ==> r.slot.Some?
  {
    if i < 8 {
      assert CleanText(TextOf(w, i));
      TextRuns(here, None, TextOf(w, i));
    } else if i == 8 {
      assert ReadInterface(None) == (None, false);
      if w.interface.Some? {
        var kind := if w.interfaceGroup then "group" else "name";
        SetInterface(here, kind, w.interface.value);
        assert PlaceCmds(s, w, i) == [Cmd(Set, [kind, w.interface.value])];
        RunOne(INTERFACE, here, Cmd(Set, [kind, w.interface.value]));
      } else {
        assert PlaceCmds(s, w, i) == [];
      }
    } else {
      FlagRuns(here, false, FlagOf(w, i));
    }
  }

  lemma RunPlacesOver(schema: Schema, cur: Slot, edits: seq<Edit>, s: RuleRecord, w: RuleRecord)
    requires schema.Branch? && Fits(schema, cur, edits) && |edits| == 12 && CleanRecord(w)
    requires forall i | 0 <= i < 12 ::
               && edits[i].at != [] && edits[i].cmds == PlaceCmds(s, w, i)
               && SchemaAt(schema, edits[i].at) == Some(PlaceSchema(i))
               && PlaceReads(s, i, None) && PlaceShape(i, Get(cur, edits[i].at))
    ensures
      var r := Run(schema, cur, RecordCmds(true, edits));
      (r.Applied? && forall i | 0 <= i < 12 :: PlaceReads(w, i, Get(r.slot, edits[i].at)))
      <==> forall i | 0 <= i < 12 :: Yields(w, i, Get(cur, edits[i].at))
  {
    var r := Run(schema, cur, RecordCmds(true, edits));
    forall i | 0 <= i < 12
      ensures
        var here := After(schema, cur, edits[i]);
        && ((here.Applied? && PlaceReads(w, i, here.slot)) <==> Yields(w, i, Get(cur, edits[i].at)))
        && (edits[i].cmds != [] && here.Applied? ==> here.slot.Some?)
    {
      PlaceOver(Get(cur, edits[i].at), s, w, i);
    }
    RunEdits(schema, cur, edits);
    RunAppend(schema, cur, Flat(edits), if AnySet(Flat(edits)) then [] else [Cmd(Set, [])]);
    if forall i | 0 <= i < 12 :: After(schema, cur, edits[i]).Applied? {
      RecordRuns(schema, cur, true, edits);
      forall i | 0 <= i < 12
        ensures Get(r.slot, edits[i].at) == After(schema, cur, edits[i]).slot
      {
      }
    }
  }

  /** A renumber reads back as the form asked if and only if the live target yields at every place. */
  lemma RenumberCorrectIff(cfg: Slot, body: RuleUpdate)
    requires ValidSection(body.section) && WellFormedAt(cfg, body.section, body.rule)
    requires Moved(body) && Walkable(cfg, FormerBase(body))
    ensures
      var key, base := InterfaceKey(body.section), RuleBase(body.section, body.rule);
      var r := Run(DEVICE, cfg, DiffNat44(Get(cfg, ["nat"]), body));
      (r.Applied? && ReadRule(key, Get(r.slot, base)) == WantedRule(body))
      <==> TargetYields(key, Get(cfg, base), WantedRule(body))
  {
    var key, base, w := InterfaceKey(body.section), RuleBase(body.section, body.rule), WantedRule(body);
    RuleSchema(body.section, body.rule);
    RuleSchema(body.section, body.originalRule.value);
    RulesApart(body.section, body.originalRule.value, body.section, body.rule);
    RunMove(DEVICE, cfg, FormerBase(body), base, RuleCmds(key, None, w));
    RuleOver(key, Get(cfg, base), w);
    WantedClean(body);
  }

  lemma RuleOver(key: string, target: Slot, w: RuleRecord)
    requires ValidKey(key) && WellFormedRule(key, target) && CleanRecord(w)
    ensures
      var r := Run(NatRule(key), target, RuleCmds(key, None, w));
      (r.Applied? && ReadRule(key, r.slot) == w) <==> TargetYields(key, target, w)
  {
    var s := ReadRule(key, None);
    var edits := RuleEdits(key, s, w);
    RuleFits(key, target, s, w);
    RulePlaces(key, target);
    ReadsAs(key, None, s);
    forall i | 0 <= i < 12
      ensures edits[i].at == RulePaths(key)[i] && PlaceReads(s, i, None)
    {
      GetNone(RulePaths(key)[i]);
    }
    RunPlacesOver(NatRule(key), target, edits, s, w);
    var r := Run(NatRule(key), target, RecordCmds(true, edits));
    if r.Applied? {
      ReadsAs(key, r.slot, w);
    }
  }

  const STALE: Slot := Some(Obj(map["description" := Str("old")]))

  lemma StaleDoesNotYield(w: RuleRecord)
    requires w.description.None?
    ensures WellFormedRule("outbound-interface", STALE)
    ensures !TargetYields("outbound-interface", STALE, w)
  {
    assert ["description"][1..] == [];
    assert Get(STALE, ["description"]) == Some(Str("old"));
    assert Trim("old") == "old";
    assert !Yields(w, 0, Get(STALE, RulePaths("outbound-interface")[0]));
  }

  lemma TwoRules(a: u32, b: u32, x: Slot, y: Slot)
    requires a != b
    ensures
      var cfg := Put(Put(None, RuleBase("source", a), x), RuleBase("source", b), y);
      && Get(cfg, RuleBase("source", a)) == x && Get(cfg, RuleBase("source", b)) == y
      && Walkable(cfg, RuleBase("source", a)) && Walkable(cfg, RuleBase("source", b))
  {
    var once := Put(None, RuleBase("source", a), x);
    RulesApart("source", b, "source", a);
    GetPut(None, RuleBase("source", a), x);
    GetPutApart(once, RuleBase("source", b), y, RuleBase("source", a));
    GetPut(once, RuleBase("source", b), y);
  }

  /** Rule 10 renumbered onto a live rule 20 by a form without a description keeps the description of rule 20. */
  lemma StaleDescriptionSurvives()
    ensures
      var cfg := Put(Put(None, RuleBase("source", 20), STALE), RuleBase("source", 10), Some(Obj(map[])));
      var body := RuleUpdate("source", 20, None, None, false, None, None, None, None, None, None, None,
                             false, false, true, Some(10));
      var r := Run(DEVICE, cfg, DiffNat44(Get(cfg, ["nat"]), body));
      !(r.Applied? && ReadRule("outbound-interface", Get(r.slot, RuleBase("source", 20))) == WantedRule(body))
  {
    var cfg := Put(Put(None, RuleBase("source", 20), STALE), RuleBase("source", 10), Some(Obj(map[])));
    var body := RuleUpdate("source", 20, None, None, false, None, None, None, None, None, None, None,
                           false, false, true, Some(10));
    TwoRules(20, 10, STALE, Some(Obj(map[])));
    StaleDoesNotYield(WantedRule(body));
    RenumberCorrectIff(cfg, body);
  }
}
