/** What the NAT page lists, in terms of the rules' own numbers and places. */
module NatListing {
  import opened Options
  import opened Text
  import opened ConfigTree
  import opened Fields
  import opened NatRules
  import opened StaticNat
  import opened Sorting

  // ── order ──────────────────────────────────────────────────────────────────

  /** The number by which a rule is listed: the one its text denotes, or 0 for text that denotes none below 2^64. */
  ghost predicate SortsAs(rule: string, n: nat) {
    || (n < 0x1_0000_0000_0000_0000 && rule == PrintInt(n))
    || (n == 0 && exists i | 0 <= i < |rule| :: !IsDigit(rule[i]) && rule[i] != '+')
    || (n == 0 && exists k: nat | k >= 0x1_0000_0000_0000_0000 :: rule == PrintInt(k))
  }

  lemma SortNumber(rule: string, n: nat)
    requires SortsAs(rule, n)
    ensures Number(rule) == n
  {
    if n < 0x1_0000_0000_0000_0000 && rule == PrintInt(n) {
      ParsePrint(n, 0, 0x1_0000_0000_0000_0000);
    } else if i :| 0 <= i < |rule| && !IsDigit(rule[i]) && rule[i] != '+' {
      assert i > 0 ==> rule[1..][i - 1] == rule[i];
    } else {
      var k: nat :| k >= 0x1_0000_0000_0000_0000 && rule == PrintInt(k);
      PrintNatValue(k);
    }
  }

  /** The rules of a section that are no mappings are listed by their numbers. */
  lemma RulesInOrder(node: Slot, section: string, i: nat, j: nat, m: nat, n: nat)
    requires i < j < |Plain(node, section)|
    requires SortsAs(Plain(node, section)[i].rule, m) && SortsAs(Plain(node, section)[j].rule, n)
    ensures m <= n
  {
    hide SortsAs, Number, Plain, Statics;
    SplitSorted(node, section);
    SortNumber(Plain(node, section)[i].rule, m);
    SortNumber(Plain(node, section)[j].rule, n);
    assert RuleLeq(Plain(node, section)[i], Plain(node, section)[j]);
  }

  /** So are the mappings. */
  lemma MappingsInOrder(node: Slot, i: nat, j: nat, m: nat, n: nat)
    requires i < j < |Statics(node)|
    requires SortsAs(Statics(node)[i].rule, m) && SortsAs(Statics(node)[j].rule, n)
    ensures m <= n
  {
    hide SortsAs, Number, Plain, Statics;
    SplitSorted(node, "source");
    SortNumber(Statics(node)[i].rule, m);
    SortNumber(Statics(node)[j].rule, n);
    assert MappingLeq(Statics(node)[i], Statics(node)[j]);
  }

  // ── mappings ───────────────────────────────────────────────────────────────

  lemma RuleAt(node: Slot, section: string, num: string)
    ensures num in RulesOf(node, section) <==> Get(node, [section, "rule", num]).Some?
    ensures num in RulesOf(node, section) ==> Some(RulesOf(node, section)[num]) == Get(node, [section, "rule", num])
  {
    assert [section, "rule"] + [num] == [section, "rule", num];
    GetSplit(node, [section, "rule"], [num]);
    assert [num][1..] == [];
  }

  lemma MirrorsIff(s: Slot, d: Slot)
    ensures
      Mirrors(s, d) <==>
      exists internal, external ::
        && ReadText(Get(s, ["source", "address"])) == Some(internal)
        && ReadText(Get(s, ["translation", "address"])) == Some(external)
        && ReadText(Get(d, ["destination", "address"])) == Some(external)
        && ReadText(Get(d, ["translation", "address"])) == Some(internal)
  {
    hide Get, ReadText;
  }

  /** A number is listed as a mapping exactly when it has both rules, and they translate two addresses into each other. */
  lemma ListedAsMappingIff(node: Slot, num: string)
    ensures
      var s, d := Get(node, ["source", "rule", num]), Get(node, ["destination", "rule", num]);
      (exists m :: m in Statics(node) && m.rule == num) <==>
      && s.Some? && d.Some?
      && exists internal, external ::
           && ReadText(Get(s, ["source", "address"])) == Some(internal)
           && ReadText(Get(s, ["translation", "address"])) == Some(external)
           && ReadText(Get(d, ["destination", "address"])) == Some(external)
           && ReadText(Get(d, ["translation", "address"])) == Some(internal)
  {
    hide Get, ReadText, Statics, RulesOf, MappingNumbers, Mirrors;
    RuleAt(node, "source", num);
    RuleAt(node, "destination", num);
    MirrorsIff(Get(node, ["source", "rule", num]), Get(node, ["destination", "rule", num]));
    SplitCounts(node, "source", num);
    NumberListed(Statics(node), num);
  }

  /** A listed mapping shows its two rules: it is enabled while both are, and named by the source rule if that has a name. */
  lemma MappingShows(node: Slot, m: Mapping)
    requires m in Statics(node)
    ensures
      var s, d := Get(node, ["source", "rule", m.rule]), Get(node, ["destination", "rule", m.rule]);
      && s.Some? && d.Some?
      && m.internal == ReadText(Get(s, ["source", "address"])) == ReadText(Get(d, ["translation", "address"]))
      && m.external == ReadText(Get(s, ["translation", "address"])) == ReadText(Get(d, ["destination", "address"]))
      && m.internal.Some? && m.external.Some?
      && (m.enabled <==> Get(s, ["disable"]).None? && Get(d, ["disable"]).None?)
      && (ReadText(Get(s, ["description"])).Some? ==> m.description == ReadText(Get(s, ["description"])))
      && (ReadText(Get(s, ["description"])).None? ==> m.description == ReadText(Get(d, ["description"])))
      && (ReadText(Get(s, ["outbound-interface", "name"])).Some? ==>
            m.interface == ReadText(Get(s, ["outbound-interface", "name"])))
      && (ReadText(Get(s, ["outbound-interface", "name"])).None? ==>
            m.interface == ReadText(Get(s, ["outbound-interface"])))
  {
    hide Get, ReadText, Statics, RulesOf;
    StaticNumbers(node);
    RuleAt(node, "source", m.rule);
    RuleAt(node, "destination", m.rule);
  }

  /** A rule in a plain list shows its own node: an address or else a prefix, an interface by name or else by group. */
  lemma RuleShows(node: Slot, section: string, r: ListedRule)
    requires ValidSection(section) && r in Plain(node, section)
    ensures
      var x := Get(node, [section, "rule", r.rule]);
      && x.Some?
      && r.description == ReadText(Get(x, ["description"])) && r.protocol == ReadText(Get(x, ["protocol"]))
      && r.source == (if ReadText(Get(x, ["source", "address"])).Some? then ReadText(Get(x, ["source", "address"]))
                      else ReadText(Get(x, ["source", "prefix"])))
      && r.destination ==
         (if ReadText(Get(x, ["destination", "address"])).Some? then ReadText(Get(x, ["destination", "address"]))
          else ReadText(Get(x, ["destination", "prefix"])))
      && r.sourcePort == ReadText(Get(x, ["source", "port"]))
      && r.destinationPort == ReadText(Get(x, ["destination", "port"]))
      && r.translationPort == ReadText(Get(x, ["translation", "port"]))
      && r.sourceGroup == GroupRef(x, "source") && r.destinationGroup == GroupRef(x, "destination")
      && (ReadText(Get(x, ["translation", "address"])).Some? ==>
            r.translation == ReadText(Get(x, ["translation", "address"])))
      && (ReadText(Get(x, ["translation", "address"])).None? ==> r.translation == Translation(x))
      && (r.exclude <==> Get(x, ["exclude"]).Some?) && (r.log <==> Get(x, ["log"]).Some?)
      && (r.enabled <==> Get(x, ["disable"]).None?)
      && var f := Get(x, [if section == "source" then "outbound-interface" else "inbound-interface"]);
         if ReadText(Get(f, ["name"])).Some? then r.interface == ReadText(Get(f, ["name"])) && !r.interfaceGroup
         else if ReadText(Get(f, ["group"])).Some? then r.interface == ReadText(Get(f, ["group"])) && r.interfaceGroup
         else r.interface == ReadText(f) && !r.interfaceGroup
  {
    hide Get, ReadText, GroupRef, FirstKey, Plain, RulesOf;
    var iface := Get(Get(node, [section, "rule", r.rule]), [InterfaceKey(section)]);
    KeyOf(iface, "name");
    KeyOf(iface, "group");
    SplitIsPartition(node, section);
    RuleAt(node, section, r.rule);
  }

  // ── names in an object ─────────────────────────────────────────────────────

  /** `k` comes before `j`: it is a beginning of it, or has the smaller character where they first differ. */
  ghost predicate ComesBefore(k: string, j: string, n: nat) {
    n <= |k| && n <= |j| && k[..n] == j[..n] && (n == |k| || (n < |j| && k[n] < j[n]))
  }

  lemma {:induction false} BeforeLeq(k: string, j: string, n: nat)
    requires ComesBefore(k, j, n)
    ensures TextLeq(k, j)
    decreases n
  {
    if n > 0 {
      assert k[0] == k[..n][0] == j[..n][0] == j[0];
      assert k[1..][..n - 1] == k[..n][1..] == j[..n][1..] == j[1..][..n - 1];
      BeforeLeq(k[1..], j[1..], n - 1);
    }
  }

  /** The first of the keys in the order of their characters. */
  ghost predicate FirstAmong(k: string, keys: set<string>) {
    k in keys && forall j | j in keys :: exists n: nat :: ComesBefore(k, j, n)
  }

  lemma FirstKeyIs(cur: Slot, k: string)
    requires FirstAmong(k, Kids(cur).Keys)
    ensures FirstKey(cur) == Some(k)
  {
    forall j | j in Kids(cur).Keys
      ensures TextLeq(k, j)
    {
      var n: nat :| ComesBefore(k, j, n);
      BeforeLeq(k, j, n);
    }
    assert Least(k, Kids(cur).Keys);
    LeastUnique(Kids(cur).Keys);
  }

  /** A rule that matches a group is listed with the type and the name of the first group it names. */
  lemma GroupListed(cur: Slot, section: string, kind: string, name: string)
    requires
      var group := Get(cur, [section, "group"]);
      FirstAmong(kind, Kids(group).Keys) && Kids(group)[kind] == Str(name)
    ensures GroupRef(cur, section) == Some(kind + " " + name)
  {
    FirstKeyIs(Get(cur, [section, "group"]), kind);
  }

  lemma NoGroupListed(cur: Slot, section: string)
    requires Kids(Get(cur, [section, "group"])) == map[]
    ensures GroupRef(cur, section).None?
  {
  }

  /** The translation shown: an address, else a pool by its text or its first key, else masquerading, else none. */
  lemma TranslationListed(cur: Slot, pool: string)
    requires ReadText(Get(cur, ["translation", "address"])).None?
    ensures ReadText(Get(cur, ["translation", "pool"])) == Some(pool) ==> Translation(cur) == Some(pool)
    ensures FirstAmong(pool, Kids(Get(cur, ["translation", "pool"])).Keys) ==> Translation(cur) == Some(pool)
    ensures Get(cur, ["translation", "pool"]).None? ==>
              Translation(cur) ==
              if Get(cur, ["translation", "masquerade"]).Some? then Some("masquerade") else None
  {
    hide Get;
    if FirstAmong(pool, Kids(Get(cur, ["translation", "pool"])).Keys) {
      FirstKeyIs(Get(cur, ["translation", "pool"]), pool);
    }
  }
}
