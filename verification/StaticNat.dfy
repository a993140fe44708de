/** The rule lists shown to the operator, and 1-to-1 mappings lifted out of paired rules. */
module StaticNat {
  import opened Options
  import opened Text
  import opened ConfigTree
  import opened Fields
  import opened DeviceSchema
  import opened NatRules
  import opened Sorting

  /** A rule as listed (`NatRule`). */
  datatype ListedRule = ListedRule(
    rule: string, description: Option<string>, interface: Option<string>, interfaceGroup: bool,
    source: Option<string>, sourceGroup: Option<string>, sourcePort: Option<string>,
    destination: Option<string>, destinationGroup: Option<string>, destinationPort: Option<string>,
    translation: Option<string>, translationPort: Option<string>, protocol: Option<string>,
    exclude: bool, log: bool, enabled: bool)

  datatype Mapping = Mapping(
    rule: string, description: Option<string>, interface: Option<string>,
    internal: Option<string>, external: Option<string>, enabled: bool)

  // ── listing ────────────────────────────────────────────────────────────────

  function AddressOrPrefix(cur: Slot, section: string): Option<string> {
    Or(ReadText(Get(cur, [section, "address"])), ReadText(Get(cur, [section, "prefix"])))
  }

  function FirstKey(cur: Slot): Option<string> {
    if Kids(cur) == map[] then None else Some(LeastKey(Kids(cur).Keys))
  }

  /** The first entry of a `group` object, printed as `<type> <name>`. */
  function GroupRef(cur: Slot, section: string): Option<string> {
    var group := Get(cur, [section, "group"]);
    var first := FirstKey(group);
    if first.None? then None
    else
      match Kids(group)[first.value]
      case Str(name) => Some(first.value + " " + name)
      case _ => None
  }

  function Translation(cur: Slot): Option<string> {
    Or(ReadText(Get(cur, ["translation", "address"])),
       Or(ReadText(Get(cur, ["translation", "pool"])),
          Or(FirstKey(Get(cur, ["translation", "pool"])),
             if Get(cur, ["translation", "masquerade"]).Some? then Some("masquerade") else None)))
  }

  function ParseRule(num: string, cur: Slot, key: string): ListedRule {
    var interface := ReadInterface(Get(cur, [key]));
    ListedRule(
      num, ReadText(Get(cur, ["description"])), interface.0, interface.1,
      AddressOrPrefix(cur, "source"), GroupRef(cur, "source"), ReadText(Get(cur, ["source", "port"])),
      AddressOrPrefix(cur, "destination"), GroupRef(cur, "destination"), ReadText(Get(cur, ["destination", "port"])),
      Translation(cur), ReadText(Get(cur, ["translation", "port"])), ReadText(Get(cur, ["protocol"])),
      Get(cur, ["exclude"]).Some?, Get(cur, ["log"]).Some?, Get(cur, ["disable"]).None?)
  }

  /** A rule number as the sort sees it; text that is no number counts as 0. */
  function Number(rule: string): int {
    var n := ParseU64(rule);
    if n.Some? then n.value else 0
  }

  predicate RuleLeq(a: ListedRule, b: ListedRule) {
    Number(a.rule) <= Number(b.rule)
  }

  predicate MappingLeq(a: Mapping, b: Mapping) {
    Number(a.rule) <= Number(b.rule)
  }

  function RulesOf(node: Slot, section: string): map<string, Node> {
    Kids(Get(node, [section, "rule"]))
  }

  function ParseAll(rules: map<string, Node>, key: string, nums: seq<string>): (r: seq<ListedRule>)
    requires forall n | n in nums :: n in rules
    ensures |r| == |nums| && forall i | 0 <= i < |r| :: r[i] == ParseRule(nums[i], Some(rules[nums[i]]), key)
  {
    if nums == [] then []
    else [ParseRule(nums[0], Some(rules[nums[0]]), key)] + ParseAll(rules, key, nums[1..])
  }

  function ParseRules(node: Slot, section: string): seq<ListedRule> {
    var rules := RulesOf(node, section);
    SortedKeysAre(rules.Keys);
    Sort(RuleLeq, ParseAll(rules, InterfaceKey(section), SortedKeys(rules.Keys)))
  }

  /** Places of a rule the form does not cover. */
  lemma UncoveredPlaces(key: string)
    requires ValidKey(key)
    ensures forall q | q in [["source", "prefix"], ["source", "group"], ["destination", "prefix"],
                             ["destination", "group"], ["translation", "pool"], ["translation", "masquerade"]] ::
              ApartFromRule(key, q)
  {
  }

  /** The listing of a rule whose form fields read `w` and whose other places are as in `before`. */
  function ListedWith(num: string, w: RuleRecord, before: Slot): ListedRule {
    var pool := Get(before, ["translation", "pool"]);
    ListedRule(
      num, w.description, w.interface, w.interfaceGroup,
      Or(w.sourceAddress, ReadText(Get(before, ["source", "prefix"]))), GroupRef(before, "source"), w.sourcePort,
      Or(w.destinationAddress, ReadText(Get(before, ["destination", "prefix"]))), GroupRef(before, "destination"),
      w.destinationPort,
      Or(w.translationAddress,
         Or(ReadText(pool),
            Or(FirstKey(pool),
               if Get(before, ["translation", "masquerade"]).Some? then Some("masquerade") else None))),
      w.translationPort, w.protocol, w.exclude, w.log, w.enabled)
  }

  /**
   A committed rule is listed with every field of the form. Only where the form leaves an address unset does the
   list fall back to what the form does not cover: a prefix, a pool or masquerading that was already there.
   */
  lemma ListedAsWanted(cfg: Slot, body: RuleUpdate)
    requires ValidSection(body.section) && WellFormedAt(cfg, body.section, body.rule)
    requires Moved(body) ==>
               Get(cfg, RuleBase(body.section, body.rule)).None? && Walkable(cfg, FormerBase(body))
    ensures
      var base := RuleBase(body.section, body.rule);
      var r := Run(DEVICE, cfg, DiffNat44(Get(cfg, ["nat"]), body));
      && r.Applied?
      && ParseRule(PrintInt(body.rule), Get(r.slot, base), InterfaceKey(body.section)) ==
         ListedWith(PrintInt(body.rule), WantedRule(body), Get(cfg, base))
  {
    hide ParseRule, ListedWith, Run, DiffNat44;
    var key, base := InterfaceKey(body.section), RuleBase(body.section, body.rule);
    DiffNat44Correct(cfg, body);
    UncoveredPlaces(key);
    var after := Get(Run(DEVICE, cfg, DiffNat44(Get(cfg, ["nat"]), body)).slot, base);
    ListedFrom(PrintInt(body.rule), key, Get(cfg, base), after);
  }

  lemma ListedFrom(num: string, key: string, before: Slot, after: Slot)
    requires forall q | q in [["source", "prefix"], ["source", "group"], ["destination", "prefix"],
                              ["destination", "group"], ["translation", "pool"], ["translation", "masquerade"]] ::
               Get(after, q) == Get(before, q)
    ensures ParseRule(num, after, key) == ListedWith(num, ReadRule(key, after), before)
  {
    hide Get, ParseRule, ListedWith;
    assert Get(after, ["source", "prefix"]) == Get(before, ["source", "prefix"]);
    assert Get(after, ["source", "group"]) == Get(before, ["source", "group"]);
    assert Get(after, ["destination", "prefix"]) == Get(before, ["destination", "prefix"]);
    assert Get(after, ["destination", "group"]) == Get(before, ["destination", "group"]);
    assert Get(after, ["translation", "pool"]) == Get(before, ["translation", "pool"]);
    assert Get(after, ["translation", "masquerade"]) == Get(before, ["translation", "masquerade"]);
    ListedSame(num, key, before, after);
  }

  lemma ListedSame(num: string, key: string, before: Slot, after: Slot)
    requires Get(after, ["source", "prefix"]) == Get(before, ["source", "prefix"])
    requires Get(after, ["source", "group"]) == Get(before, ["source", "group"])
    requires Get(after, ["destination", "prefix"]) == Get(before, ["destination", "prefix"])
    requires Get(after, ["destination", "group"]) == Get(before, ["destination", "group"])
    requires Get(after, ["translation", "pool"]) == Get(before, ["translation", "pool"])
    requires Get(after, ["translation", "masquerade"]) == Get(before, ["translation", "masquerade"])
    ensures ParseRule(num, after, key) == ListedWith(num, ReadRule(key, after), before)
  {
    hide Get, ReadText, FirstKey, ReadInterface, Kids, Or;
  }

  // ── pairing ────────────────────────────────────────────────────────────────

  /** Source `internal → external` and destination `external → internal`. */
  predicate Mirrors(s: Slot, d: Slot) {
    var internal, external := ReadText(Get(s, ["source", "address"])), ReadText(Get(s, ["translation", "address"]));
    && internal.Some? && external.Some?
    && ReadText(Get(d, ["destination", "address"])) == external
    && ReadText(Get(d, ["translation", "address"])) == internal
  }

  predicate Lifted(src: map<string, Node>, dst: map<string, Node>, num: string) {
    num in src && num in dst && Mirrors(Some(src[num]), Some(dst[num]))
  }

  function MappingOf(num: string, s: Slot, d: Slot): Mapping {
    Mapping(
      num, Or(ReadText(Get(s, ["description"])), ReadText(Get(d, ["description"]))),
      Or(ReadText(Get(s, ["outbound-interface", "name"])), ReadText(Get(s, ["outbound-interface"]))),
      ReadText(Get(s, ["source", "address"])), ReadText(Get(s, ["translation", "address"])),
      Get(s, ["disable"]).None? && Get(d, ["disable"]).None?)
  }

  function LiftedAmong(src: map<string, Node>, dst: map<string, Node>, nums: seq<string>): (r: seq<string>)
    ensures forall n :: n in r <==> n in nums && Lifted(src, dst, n)
  {
    if nums == [] then []
    else (if Lifted(src, dst, nums[0]) then [nums[0]] else []) + LiftedAmong(src, dst, nums[1..])
  }

  function MappingsOf(src: map<string, Node>, dst: map<string, Node>, nums: seq<string>): (r: seq<Mapping>)
    requires forall n | n in nums :: n in src && n in dst
    ensures |r| == |nums|
    ensures forall i | 0 <= i < |r| :: r[i] == MappingOf(nums[i], Some(src[nums[i]]), Some(dst[nums[i]]))
  {
    if nums == [] then []
    else [MappingOf(nums[0], Some(src[nums[0]]), Some(dst[nums[0]]))] + MappingsOf(src, dst, nums[1..])
  }

  function Unpaired(rules: seq<ListedRule>, paired: seq<string>): (r: seq<ListedRule>)
    ensures forall x :: x in r <==> x in rules && x.rule !in paired
  {
    if rules == [] then []
    else (if rules[0].rule in paired then [] else [rules[0]]) + Unpaired(rules[1..], paired)
  }

  /** The rule numbers lifted out of the two sections. */
  function Paired(node: Slot): seq<string> {
    LiftedAmong(RulesOf(node, "source"), RulesOf(node, "destination"), SortedKeys(RulesOf(node, "source").Keys))
  }

  function Plain(node: Slot, section: string): seq<ListedRule> {
    Unpaired(ParseRules(node, section), Paired(node))
  }

  function Statics(node: Slot): seq<Mapping> {
    Sort(MappingLeq, MappingsOf(RulesOf(node, "source"), RulesOf(node, "destination"), Paired(node)))
  }

  /** The loop over the source rules: collect the mirrored numbers and their mappings. */
  method CollectPairs(src: map<string, Node>, dst: map<string, Node>)
    returns (paired: seq<string>, statics: seq<Mapping>)
    ensures paired == LiftedAmong(src, dst, SortedKeys(src.Keys))
    ensures statics == MappingsOf(src, dst, paired)
  {
    hide MappingOf, ReadText, Get, SortedKeys, LiftedAmong, MappingsOf;
    var nums := SortedKeys(src.Keys);
    SortedKeysAre(src.Keys);
    paired, statics := [], [];
    var i := 0;
    while i < |nums|
      invariant 0 <= i <= |nums|
      invariant paired + LiftedAmong(src, dst, nums[i..]) == LiftedAmong(src, dst, nums)
      invariant forall n | n in paired :: n in src && n in dst
      invariant statics == MappingsOf(src, dst, paired)
    {
      var num := nums[i];
      LiftedStep(src, dst, nums, i);
      i := i + 1;
      if num !in dst {
        continue;
      }
      var s, d := Some(src[num]), Some(dst[num]);
      var internal, external := ReadText(Get(s, ["source", "address"])), ReadText(Get(s, ["translation", "address"]));
      if || internal.None? || external.None?
         || ReadText(Get(d, ["destination", "address"])) != external
         || ReadText(Get(d, ["translation", "address"])) != internal {
        continue;
      }
      MappingsStep(src, dst, paired, num);
      statics := statics + [MappingOf(num, s, d)];
      paired := paired + [num];
    }
    assert nums[i..] == [];
    LiftedNone(src, dst);
  }

  lemma LiftedNone(src: map<string, Node>, dst: map<string, Node>)
    ensures LiftedAmong(src, dst, []) == []
  {
  }

  lemma LiftedStep(src: map<string, Node>, dst: map<string, Node>, nums: seq<string>, i: nat)
    requires i < |nums|
    ensures LiftedAmong(src, dst, nums[i..]) ==
            (if Lifted(src, dst, nums[i]) then [nums[i]] else []) + LiftedAmong(src, dst, nums[i + 1..])
  {
    assert nums[i..][1..] == nums[i + 1..];
  }

  lemma MappingsStep(src: map<string, Node>, dst: map<string, Node>, nums: seq<string>, num: string)
    requires num in src && num in dst && forall n | n in nums :: n in src && n in dst
    ensures MappingsOf(src, dst, nums + [num]) ==
            MappingsOf(src, dst, nums) + [MappingOf(num, Some(src[num]), Some(dst[num]))]
  {
  }

  /** `split_static` as it runs. */
  method SplitStatic(node: Slot)
    returns (source: seq<ListedRule>, destination: seq<ListedRule>, statics: seq<Mapping>)
    ensures source == Plain(node, "source") && destination == Plain(node, "destination") && statics == Statics(node)
  {
    source, destination := ParseRules(node, "source"), ParseRules(node, "destination");
    var paired;
    paired, statics := CollectPairs(RulesOf(node, "source"), RulesOf(node, "destination"));
    source := Unpaired(source, paired);
    destination := Unpaired(destination, paired);
    statics := Sort(MappingLeq, statics);
  }

  // ── the split is a partition ───────────────────────────────────────────────

  function RuleNumbers(rules: seq<ListedRule>): seq<string> {
    Map((r: ListedRule) => r.rule, rules)
  }

  function MappingNumbers(ms: seq<Mapping>): seq<string> {
    Map((m: Mapping) => m.rule, ms)
  }

  lemma {:induction false} UnpairedCounts(rules: seq<ListedRule>, paired: seq<string>, num: string)
    ensures multiset(RuleNumbers(Unpaired(rules, paired)))[num] ==
            if num in paired then 0 else multiset(RuleNumbers(rules))[num]
    decreases rules
  {
    if rules != [] {
      UnpairedCounts(rules[1..], paired, num);
      assert RuleNumbers(rules) == [rules[0].rule] + RuleNumbers(rules[1..]);
      var rest := Unpaired(rules[1..], paired);
      assert ([rules[0]] + rest)[1..] == rest && [] + rest == rest;
    }
  }

  lemma {:induction false} LiftedCounts(src: map<string, Node>, dst: map<string, Node>, nums: seq<string>, num: string)
    ensures multiset(LiftedAmong(src, dst, nums))[num] == if Lifted(src, dst, num) then multiset(nums)[num] else 0
    decreases nums
  {
    if nums != [] {
      LiftedCounts(src, dst, nums[1..], num);
      assert nums == [nums[0]] + nums[1..];
    }
  }

  lemma ListedNumbers(node: Slot, section: string)
    ensures multiset(RuleNumbers(ParseRules(node, section))) == multiset(RulesOf(node, section).Keys)
    ensures forall r | r in ParseRules(node, section) ::
              r.rule in RulesOf(node, section) &&
              r == ParseRule(r.rule, Some(RulesOf(node, section)[r.rule]), InterfaceKey(section))
  {
    hide RulesOf, SortedKeys, ParseRule, Sort, RuleNumbers, ParseAll;
    var rules := RulesOf(node, section);
    SortedKeysAre(rules.Keys);
    ParsedNumbers(rules, InterfaceKey(section), SortedKeys(rules.Keys));
  }

  lemma ParsedNumbers(rules: map<string, Node>, key: string, nums: seq<string>)
    requires forall n | n in nums :: n in rules
    ensures
      var listed := Sort(RuleLeq, ParseAll(rules, key, nums));
      && multiset(RuleNumbers(listed)) == multiset(nums)
      && forall r | r in listed :: r.rule in rules && r == ParseRule(r.rule, Some(rules[r.rule]), key)
  {
    hide Sort, RuleLeq;
    var parsed := ParseAll(rules, key, nums);
    SortMaps(RuleLeq, (r: ListedRule) => r.rule, parsed);
    SortKeeps(RuleLeq, parsed);
    assert RuleNumbers(parsed) == nums;
  }

  lemma StaticNumbers(node: Slot)
    ensures multiset(MappingNumbers(Statics(node))) == multiset(Paired(node))
    ensures forall m | m in Statics(node) ::
              && Lifted(RulesOf(node, "source"), RulesOf(node, "destination"), m.rule)
              && m == MappingOf(m.rule, Some(RulesOf(node, "source")[m.rule]), Some(RulesOf(node, "destination")[m.rule]))
  {
    hide RulesOf, MappingOf, Sort, MappingNumbers, MappingsOf, Mirrors, LiftedAmong;
    SortedMappings(RulesOf(node, "source"), RulesOf(node, "destination"), Paired(node));
  }

  lemma SortedMappings(src: map<string, Node>, dst: map<string, Node>, nums: seq<string>)
    requires forall n | n in nums :: n in src && n in dst
    ensures
      var listed := Sort(MappingLeq, MappingsOf(src, dst, nums));
      && multiset(MappingNumbers(listed)) == multiset(nums)
      && forall m | m in listed :: m.rule in nums && m == MappingOf(m.rule, Some(src[m.rule]), Some(dst[m.rule]))
  {
    hide Sort, MappingLeq, MappingsOf, MappingOf, Map;
    var ms := MappingsOf(src, dst, nums);
    SortMaps(MappingLeq, (m: Mapping) => m.rule, ms);
    SortKeeps(MappingLeq, ms);
    forall i | 0 <= i < |nums|
      ensures ms[i].rule == nums[i]
    {
      MappingNumber(nums[i], Some(src[nums[i]]), Some(dst[nums[i]]));
    }
    assert MappingNumbers(ms) == nums;
  }

  lemma MappingNumber(num: string, s: Slot, d: Slot)
    ensures MappingOf(num, s, d).rule == num
  {
  }

  lemma NumberListed(ms: seq<Mapping>, num: string)
    ensures num in MappingNumbers(ms) <==> exists m :: m in ms && m.rule == num
  {
    var ns := MappingNumbers(ms);
    if num in ns {
      var i :| 0 <= i < |ns| && ns[i] == num;
      assert ms[i] in ms && ms[i].rule == num;
    }
    if m :| m in ms && m.rule == num {
      var i :| 0 <= i < |ms| && ms[i] == m;
      assert ns[i] == num;
    }
  }

  lemma SplitCounts(node: Slot, section: string, num: string)
    requires ValidSection(section)
    ensures multiset(RuleNumbers(Plain(node, section)))[num] + multiset(MappingNumbers(Statics(node)))[num] ==
            multiset(RulesOf(node, section).Keys)[num]
    ensures num in MappingNumbers(Statics(node)) <==>
              Lifted(RulesOf(node, "source"), RulesOf(node, "destination"), num)
  {
    hide ParseRules, SortedKeys, Mirrors;
    var src, dst := RulesOf(node, "source"), RulesOf(node, "destination");
    SortedKeysAre(src.Keys);
    ListedNumbers(node, section);
    StaticNumbers(node);
    UnpairedCounts(ParseRules(node, section), Paired(node), num);
    LiftedCounts(src, dst, SortedKeys(src.Keys), num);
    assert num in MappingNumbers(Statics(node)) <==> num in multiset(MappingNumbers(Statics(node)));
    assert multiset(Paired(node))[num] == if Lifted(src, dst, num) then 1 else 0;
  }

  lemma SplitSorted(node: Slot, section: string)
    ensures SortedBy(RuleLeq, Plain(node, section)) && SortedBy(MappingLeq, Statics(node))
  {
    var src, dst := RulesOf(node, "source"), RulesOf(node, "destination");
    SortedKeysAre(RulesOf(node, section).Keys);
    SortSorts(RuleLeq, ParseAll(RulesOf(node, section), InterfaceKey(section), SortedKeys(RulesOf(node, section).Keys)));
    UnpairedSorted(ParseRules(node, section), Paired(node));
    SortSorts(MappingLeq, MappingsOf(src, dst, Paired(node)));
  }

  /**
   Every rule of either section ends in exactly one place, its own list or the mappings, and in the mappings
   exactly when the two halves mirror; all three lists are in rule-number order.
   */
  lemma SplitIsPartition(node: Slot, section: string)
    requires ValidSection(section)
    ensures multiset(RuleNumbers(Plain(node, section))) + multiset(MappingNumbers(Statics(node))) ==
            multiset(RulesOf(node, section).Keys)
    ensures |Plain(node, section)| + |Statics(node)| == |RulesOf(node, section)|
    ensures forall r | r in Plain(node, section) ::
              && r.rule in RulesOf(node, section)
              && !Lifted(RulesOf(node, "source"), RulesOf(node, "destination"), r.rule)
              && r == ParseRule(r.rule, Some(RulesOf(node, section)[r.rule]), InterfaceKey(section))
    ensures forall num :: num in MappingNumbers(Statics(node)) <==>
                          Lifted(RulesOf(node, "source"), RulesOf(node, "destination"), num)
    ensures SortedBy(RuleLeq, Plain(node, section)) && SortedBy(MappingLeq, Statics(node))
  {
    hide ParseRules, Paired, Mirrors, Statics, SortedBy;
    var kept, lifted := multiset(RuleNumbers(Plain(node, section))), multiset(MappingNumbers(Statics(node)));
    forall num
      ensures (kept + lifted)[num] == multiset(RulesOf(node, section).Keys)[num]
      ensures num in MappingNumbers(Statics(node)) <==>
                Lifted(RulesOf(node, "source"), RulesOf(node, "destination"), num)
    {
      SplitCounts(node, section, num);
    }
    assert kept + lifted == multiset(RulesOf(node, section).Keys);
    assert |kept| == |Plain(node, section)| && |lifted| == |Statics(node)|;
    assert |multiset(RulesOf(node, section).Keys)| == |RulesOf(node, section)|;
    ListedNumbers(node, section);
    PlainAreUnpaired(node, section);
    SplitSorted(node, section);
  }

  lemma PlainAreUnpaired(node: Slot, section: string)
    requires ValidSection(section)
    ensures forall r | r in Plain(node, section) ::
              r in ParseRules(node, section) &&
              !Lifted(RulesOf(node, "source"), RulesOf(node, "destination"), r.rule)
  {
    SortedKeysAre(RulesOf(node, "source").Keys);
  }

  lemma {:induction false} UnpairedSorted(rules: seq<ListedRule>, paired: seq<string>)
    requires SortedBy(RuleLeq, rules)
    ensures SortedBy(RuleLeq, Unpaired(rules, paired))
    decreases rules
  {
    if rules != [] {
      UnpairedSorted(rules[1..], paired);
      var rest := Unpaired(rules[1..], paired);
      forall j | 0 <= j < |rest|
        ensures RuleLeq(rules[0], rest[j])
      {
        assert rest[j] in rest && rest[j] in rules[1..];
      }
    }
  }
}
