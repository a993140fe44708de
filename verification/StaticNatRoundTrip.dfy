/** Staging a 1-to-1 mapping, committing it and listing it again. */
module StaticNatRoundTrip {
  import opened Options
  import opened Text
  import opened ConfigTree
  import opened DeviceSchema
  import opened NatRules
  import opened StaticNat

  datatype StaticUpdate = StaticUpdate(
    rule: u32, description: Option<string>, interface: Option<string>,
    internal: Option<string>, external: Option<string>, enabled: bool, originalRule: Option<u32>)

  /** The source rule maps internal to external, the destination rule mirrors it; all other leaves are unset. */
  function StaticPair(body: StaticUpdate): (RuleUpdate, RuleUpdate) {
    (RuleUpdate("source", body.rule, body.description, body.interface, false,
                body.internal, None, None, None, body.external, None,
                None, false, false, body.enabled, body.originalRule),
     RuleUpdate("destination", body.rule, body.description, body.interface, false,
                None, None, body.external, None, body.internal, None,
                None, false, false, body.enabled, body.originalRule))
  }

  function DiffStatic(natTree: Slot, body: StaticUpdate): seq<Cmd> {
    DiffNat44(natTree, StaticPair(body).0) + DiffNat44(natTree, StaticPair(body).1)
  }

  /** What one half needs of the live tree: walkable rules, and a free number when it is renumbered. */
  ghost predicate Ready(cfg: Slot, body: RuleUpdate) {
    && ValidSection(body.section) && WellFormedAt(cfg, body.section, body.rule)
    && (Moved(body) ==>
          Get(cfg, RuleBase(body.section, body.rule)).None? && Walkable(cfg, FormerBase(body)))
  }

  /** Source and destination diffs of one live tree, fired one after the other, do not disturb each other. */
  lemma BothHalves(cfg: Slot, a: RuleUpdate, b: RuleUpdate)
    requires Ready(cfg, a) && Ready(cfg, b) && a.section != b.section
    ensures
      var natTree := Get(cfg, ["nat"]);
      var r := Run(DEVICE, cfg, DiffNat44(natTree, a) + DiffNat44(natTree, b));
      && r.Applied?
      && Get(r.slot, RuleBase(a.section, a.rule)).Some? && Get(r.slot, RuleBase(b.section, b.rule)).Some?
      && ReadRule(InterfaceKey(a.section), Get(r.slot, RuleBase(a.section, a.rule))) == WantedRule(a)
      && ReadRule(InterfaceKey(b.section), Get(r.slot, RuleBase(b.section, b.rule))) == WantedRule(b)
      && (Moved(a) ==> Get(r.slot, FormerBase(a)).None?) && (Moved(b) ==> Get(r.slot, FormerBase(b)).None?)
  {
    hide Get, Walkable, WantedRule, ReadRule, WellFormedRule, RuleBase, DiffNat44, Run, Put;
    var natTree := Get(cfg, ["nat"]);
    var baseA, baseB := RuleBase(a.section, a.rule), RuleBase(b.section, b.rule);
    DiffNat44Correct(cfg, a);
    var mid := Run(DEVICE, cfg, DiffNat44(natTree, a)).slot;
    RulesApart(a.section, a.rule, b.section, b.rule);
    RulesApart(b.section, b.rule, a.section, a.rule);
    if Moved(a) {
      RulesApart(a.section, a.originalRule.value, b.section, b.rule);
      RulesApart(b.section, b.rule, a.section, a.originalRule.value);
    }
    if Moved(b) {
      RulesApart(a.section, a.rule, b.section, b.originalRule.value);
      RulesApart(b.section, b.originalRule.value, a.section, a.rule);
    }
    if Moved(a) && Moved(b) {
      RulesApart(a.section, a.originalRule.value, b.section, b.originalRule.value);
      RulesApart(b.section, b.originalRule.value, a.section, a.originalRule.value);
    }
    SameDiff(cfg, mid, b);
    DiffNat44Correct(mid, b);
    RunAppend(DEVICE, cfg, DiffNat44(natTree, a), DiffNat44(natTree, b));
  }

  /** The diff depends on the live tree only through the rule it is about. */
  lemma SameDiff(cfg: Slot, other: Slot, body: RuleUpdate)
    requires Get(cfg, RuleBase(body.section, body.rule)) == Get(other, RuleBase(body.section, body.rule))
    ensures DiffNat44(Get(cfg, ["nat"]), body) == DiffNat44(Get(other, ["nat"]), body)
  {
    LiveRule(cfg, body.section, body.rule);
    LiveRule(other, body.section, body.rule);
  }

  lemma RuleInSection(cfg: Slot, section: string, rule: u32)
    ensures
      var rules := RulesOf(Get(cfg, ["nat"]), section);
      && (PrintInt(rule) in rules <==> Get(cfg, RuleBase(section, rule)).Some?)
      && (PrintInt(rule) in rules ==> Some(rules[PrintInt(rule)]) == Get(cfg, RuleBase(section, rule)))
  {
    var num := PrintInt(rule);
    LiveRule(cfg, section, rule);
    assert [section, "rule"] + [num] == [section, "rule", num];
    GetSplit(Get(cfg, ["nat"]), [section, "rule"], [num]);
    assert [num][1..] == [];
  }

  /** The mapping the form asked for, as it is listed. */
  function WantedMapping(body: StaticUpdate): Mapping {
    Mapping(PrintInt(body.rule), Wanted(body.description), Wanted(body.interface),
            Wanted(body.internal), Wanted(body.external), body.enabled)
  }

  /** What the two rules of a mapping ask for: the addresses, mirrored, and nothing else that would match or except. */
  lemma PairWanted(body: StaticUpdate)
    ensures WantedRule(StaticPair(body).0) ==
            RuleRecord(Wanted(body.description), Wanted(body.internal), None, None, None, None, Wanted(body.external), None,
                       Wanted(body.interface), false, false, false, body.enabled)
    ensures WantedRule(StaticPair(body).1) ==
            RuleRecord(Wanted(body.description), None, None, Wanted(body.external), None, None, Wanted(body.internal), None,
                       Wanted(body.interface), false, false, false, body.enabled)
  {
  }

  lemma PairMirrors(body: StaticUpdate, s: Slot, d: Slot)
    requires Wanted(body.internal).Some? && Wanted(body.external).Some?
    requires ReadRule("outbound-interface", s) == WantedRule(StaticPair(body).0)
    requires ReadRule("inbound-interface", d) == WantedRule(StaticPair(body).1)
    ensures Mirrors(s, d) && MappingOf(PrintInt(body.rule), s, d) == WantedMapping(body)
  {
    assert ReadRule("outbound-interface", s).interface == Wanted(body.interface);
    assert !ReadRule("outbound-interface", s).interfaceGroup;
    var iface := Get(s, ["outbound-interface"]);
    assert ReadInterface(iface) == (Wanted(body.interface), false);
    assert ["outbound-interface", "name"][1..] == ["name"] && ["name"][1..] == [] && ["outbound-interface"][1..] == [];
    assert Get(s, ["outbound-interface", "name"]) == Kid(iface, "name");
  }

  /**
   A committed mapping is listed as exactly one mapping under its number, with the fields asked for, and its
   number is in neither plain list.
   */
  lemma StaticRoundTrip(cfg: Slot, body: StaticUpdate)
    requires Wanted(body.internal).Some? && Wanted(body.external).Some?
    requires Ready(cfg, StaticPair(body).0) && Ready(cfg, StaticPair(body).1)
    ensures
      var r := Run(DEVICE, cfg, DiffStatic(Get(cfg, ["nat"]), body));
      && r.Applied?
      && ReadRule("outbound-interface", Get(r.slot, RuleBase("source", body.rule))) ==
         RuleRecord(Wanted(body.description), Wanted(body.internal), None, None, None, None, Wanted(body.external), None,
                    Wanted(body.interface), false, false, false, body.enabled)
      && ReadRule("inbound-interface", Get(r.slot, RuleBase("destination", body.rule))) ==
         RuleRecord(Wanted(body.description), None, None, Wanted(body.external), None, None, Wanted(body.internal), None,
                    Wanted(body.interface), false, false, false, body.enabled)
      && (var node := Get(r.slot, ["nat"]);
       var num := PrintInt(body.rule);
       && WantedMapping(body) in Statics(node)
       && multiset(MappingNumbers(Statics(node)))[num] == 1
       && (forall m | m in Statics(node) && m.rule == num :: m == WantedMapping(body))
       && num !in RuleNumbers(Plain(node, "source")) && num !in RuleNumbers(Plain(node, "destination")))
  {
    hide Get, Walkable, WantedRule, ReadRule, WellFormedRule, RuleBase, DiffNat44, Run, Ready, Mirrors, MappingOf,
         Statics, Plain, ParseRule;
    var (a, b) := StaticPair(body);
    BothHalves(cfg, a, b);
    var after := Run(DEVICE, cfg, DiffStatic(Get(cfg, ["nat"]), body)).slot;
    var num := PrintInt(body.rule);
    PairWanted(body);
    RuleInSection(after, "source", body.rule);
    RuleInSection(after, "destination", body.rule);
    PairMirrors(body, Get(after, RuleBase("source", body.rule)), Get(after, RuleBase("destination", body.rule)));
    OnlyLifted(Get(after, ["nat"]), num);
  }

  /** A mirrored number is listed once, as a mapping. */
  lemma OnlyLifted(node: Slot, num: string)
    requires Lifted(RulesOf(node, "source"), RulesOf(node, "destination"), num)
    ensures
      var it := MappingOf(num, Some(RulesOf(node, "source")[num]), Some(RulesOf(node, "destination")[num]));
      && it in Statics(node)
      && multiset(MappingNumbers(Statics(node)))[num] == 1
      && (forall m | m in Statics(node) && m.rule == num :: m == it)
      && num !in RuleNumbers(Plain(node, "source")) && num !in RuleNumbers(Plain(node, "destination"))
  {
    hide Mirrors, MappingOf, Statics, Plain, ParseRule, RuleNumbers, MappingNumbers;
    var src, dst := RulesOf(node, "source"), RulesOf(node, "destination");
    SplitIsPartition(node, "source");
    SplitIsPartition(node, "destination");
    StaticNumbers(node);
    NumberListed(Statics(node), num);
    var kept := multiset(RuleNumbers(Plain(node, "source")));
    var lifted := multiset(MappingNumbers(Statics(node)));
    assert num in lifted;
    assert (kept + lifted)[num] == 1;
    assert (multiset(RuleNumbers(Plain(node, "destination"))) + lifted)[num] == 1;
  }
}
