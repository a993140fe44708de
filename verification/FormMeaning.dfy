/**
 What a form means: which forms are accepted, which rows they replace, and how the configuration reads once they are
 committed, in terms of the form's own fields and the configuration's own paths.
 */
module FormMeaning {
  import opened Options
  import opened Text
  import opened ConfigTree
  import opened Fields
  import opened DeviceSchema
  import opened ChangeReview
  import opened ReviewLedger
  import opened LastStaging
  import opened CommitReads
  import opened Sorting
  import Nat = NatRules
  import Pairs = StaticNatRoundTrip
  import Links = Interfaces
  import Fw = FirewallOptions
  import Sys = SystemConfig

  // ── what is accepted ───────────────────────────────────────────────────────

  /** A form is accepted exactly when its numbers are in range, its section or name is one, and its page is there. */
  lemma AcceptedIff(live: Slot, v13: bool, form: Form)
    ensures Stage(live, v13, form).Staged? <==>
            match form
            case StageRule(b) => (b.section == "source" || b.section == "destination") && 1 <= b.rule <= 999999
            case DeleteRule(section, _) => section == "source" || section == "destination"
            case StageMapping(b) => 1 <= b.rule <= 999999
            case DeleteMapping(_) => true
            case StageNic(b) => exists i | 0 <= i < |b.name| :: !IsSpace(b.name[i])
            case StageVlan(b) => 1 <= b.vlanId <= 4094
            case DeleteVlan(_, _) => true
            case StageSystem(_) => Get(live, ["system"]).Some?
            case StageFirewall(_) => Get(live, ["firewall", "global-options"]).Some?
  {
    hide Get, Trim, Nat.DiffNat44, Links.DiffVlan, Links.DiffEthernet, Sys.DiffSystem, Fw.Gather, Fw.DiffGlobalOptions,
         Pairs.DiffStatic, Sys.ReadSystem;
    if form.StageNic? {
      BlankIff(form.nic.name);
    }
  }

  lemma RefusedChangesNothing(s: State, form: Form)
    requires Stage(s.live, s.v13, form).Refused?
    ensures Next(s, Submit(form)) == s
  {
    hide Stage;
  }

  /** The targets whose rows a form replaces: what it is about and, on a move, what it came from. */
  lemma StagedTargets(live: Slot, v13: bool, form: Form, t: Target)
    requires Stage(live, v13, form).Staged?
    ensures t in Stage(live, v13, form).targets <==>
            match form
            case StageRule(b) =>
              t == Rule(b.section, b.rule) || (b.originalRule.Some? && t == Rule(b.section, b.originalRule.value))
            case DeleteRule(section, n) => t == Rule(section, n)
            case StageMapping(b) =>
              t.Rule? && t.section in {"source", "destination"} && (t.num == b.rule || Some(t.num) == b.originalRule)
            case DeleteMapping(n) => t.Rule? && t.section in {"source", "destination"} && t.num == n
            case StageNic(b) => t == Nic(b.name)
            case StageVlan(b) =>
              || t == Vif(b.parent, b.vlanId)
              || (b.originalParent.Some? && b.originalVlanId.Some? && t == Vif(b.originalParent.value, b.originalVlanId.value))
            case DeleteVlan(parent, vid) => t == Vif(parent, vid)
            case StageSystem(_) => t == SystemPage
            case StageFirewall(_) => t == FirewallPage
  {
    hide Get, Trim, Nat.DiffNat44, Links.DiffVlan, Links.DiffEthernet, Sys.DiffSystem, Fw.Gather, Fw.DiffGlobalOptions,
         Pairs.DiffStatic, Sys.ReadSystem;
  }

  // ── how the configuration reads ────────────────────────────────────────────

  /** The interface of a rule by name, by group, or not at all; a bare name is the form of VyOS 1.3. */
  ghost predicate InterfaceAsAsked(x: Slot, interface: Option<string>, group: bool) {
    var named, grouped, bare := ReadText(Get(x, ["name"])), ReadText(Get(x, ["group"])), ReadText(x);
    if Wanted(interface).None? then named.None? && grouped.None? && bare.None?
    else if group then named.None? && grouped == Wanted(interface)
    else named == Wanted(interface) || (named.None? && grouped.None? && bare == Wanted(interface))
  }

  ghost predicate RuleAsAsked(after: Slot, b: Nat.RuleUpdate) {
    var x := Get(after, ["nat", b.section, "rule", PrintInt(b.rule)]);
    && x.Some?
    && ReadText(Get(x, ["description"])) == Wanted(b.description)
    && ReadText(Get(x, ["source", "address"])) == Wanted(b.sourceAddress)
    && ReadText(Get(x, ["source", "port"])) == Wanted(b.sourcePort)
    && ReadText(Get(x, ["destination", "address"])) == Wanted(b.destinationAddress)
    && ReadText(Get(x, ["destination", "port"])) == Wanted(b.destinationPort)
    && ReadText(Get(x, ["translation", "address"])) == Wanted(b.translationAddress)
    && ReadText(Get(x, ["translation", "port"])) == Wanted(b.translationPort)
    && ReadText(Get(x, ["protocol"])) == Wanted(b.protocol)
    && InterfaceAsAsked(Get(x, [if b.section == "source" then "outbound-interface" else "inbound-interface"]),
                        b.interface, b.interfaceGroup)
    && (Get(x, ["exclude"]).Some? <==> b.exclude)
    && (Get(x, ["log"]).Some? <==> b.log)
    && (Get(x, ["disable"]).None? <==> b.enabled)
    && (b.originalRule.Some? && b.originalRule.value != b.rule ==>
          Get(after, ["nat", b.section, "rule", PrintInt(b.originalRule.value)]).None?)
  }

  /** What both rules of a mapping have in common: no ports, no protocol, no exclusion and no log. */
  ghost predicate HalfAsAsked(x: Slot, iface: string, b: Pairs.StaticUpdate) {
    && x.Some?
    && ReadText(Get(x, ["description"])) == Wanted(b.description)
    && InterfaceAsAsked(Get(x, [iface]), b.interface, false)
    && ReadText(Get(x, ["source", "port"])).None? && ReadText(Get(x, ["destination", "port"])).None?
    && ReadText(Get(x, ["translation", "port"])).None? && ReadText(Get(x, ["protocol"])).None?
    && Get(x, ["exclude"]).None? && Get(x, ["log"]).None?
    && (Get(x, ["disable"]).None? <==> b.enabled)
  }

  /** Outbound traffic of the internal address leaves as the external one, and inbound traffic the other way round. */
  ghost predicate MappingAsAsked(after: Slot, b: Pairs.StaticUpdate) {
    var s := Get(after, ["nat", "source", "rule", PrintInt(b.rule)]);
    var d := Get(after, ["nat", "destination", "rule", PrintInt(b.rule)]);
    && HalfAsAsked(s, "outbound-interface", b) && HalfAsAsked(d, "inbound-interface", b)
    && ReadText(Get(s, ["source", "address"])) == Wanted(b.internal)
    && ReadText(Get(s, ["destination", "address"])).None?
    && ReadText(Get(s, ["translation", "address"])) == Wanted(b.external)
    && ReadText(Get(d, ["source", "address"])).None?
    && ReadText(Get(d, ["destination", "address"])) == Wanted(b.external)
    && ReadText(Get(d, ["translation", "address"])) == Wanted(b.internal)
    && (b.originalRule.Some? && b.originalRule.value != b.rule ==>
          && Get(after, ["nat", "source", "rule", PrintInt(b.originalRule.value)]).None?
          && Get(after, ["nat", "destination", "rule", PrintInt(b.originalRule.value)]).None?)
  }

  /** Exactly the trimmed entries of the list are there. */
  ghost predicate AddressesAsAsked(x: Slot, addresses: seq<string>) {
    forall v :: Carries(x, v) <==> v != "" && exists i | 0 <= i < |addresses| :: Trim(addresses[i]) == v
  }

  ghost predicate NicAsAsked(after: Slot, b: Links.EthernetUpdate) {
    var x := Get(after, ["interfaces", "ethernet", b.name]);
    && x.Some?
    && ReadText(Get(x, ["description"])) == Wanted(b.description)
    && AddressesAsAsked(Get(x, ["address"]), b.addresses)
    && ReadInt(Get(x, ["mtu"])) == b.mtu
    && ReadText(Get(x, ["speed"])) == Wanted(b.speed)
    && ReadText(Get(x, ["duplex"])) == Wanted(b.duplex)
    && (Get(x, ["disable"]).None? <==> b.enabled)
  }

  ghost predicate VlanAsAsked(after: Slot, b: Links.VlanUpdate) {
    var x := Get(after, ["interfaces", "ethernet", b.parent, "vif", PrintInt(b.vlanId)]);
    && x.Some?
    && ReadText(Get(x, ["description"])) == Wanted(b.description)
    && AddressesAsAsked(Get(x, ["address"]), b.addresses)
    && ReadInt(Get(x, ["mtu"])) == b.mtu
    && (Get(x, ["disable"]).None? <==> b.enabled)
    && (b.originalParent.Some? && b.originalVlanId.Some? &&
        (b.originalParent.value != b.parent || b.originalVlanId.value != b.vlanId) ==>
          Get(after, ["interfaces", "ethernet", b.originalParent.value, "vif", PrintInt(b.originalVlanId.value)]).None?)
  }

  ghost predicate SystemAsAsked(before: Slot, after: Slot, v13: bool, u: Sys.SystemUpdate) {
    var ntp: Path := if v13 then ["system", "ntp"] else ["service", "ntp"];
    && ReadText(Get(after, ["system", "host-name"])) ==
       Or(Wanted(u.hostname), ReadText(Get(before, ["system", "host-name"])))
    && ReadText(Get(after, ["system", "time-zone"])) ==
       Or(Wanted(u.timeZone), ReadText(Get(before, ["system", "time-zone"])))
    && ReadText(Get(after, ["system", "domain-name"])) ==
       (if u.domainName.Some? then Wanted(u.domainName) else ReadText(Get(before, ["system", "domain-name"])))
    && (u.ntpEnabled == Some(false) ==> Get(after, ntp).None?)
    && (u.ntpEnabled != Some(false) && u.ntpServers.None? ==> Get(after, ntp) == Get(before, ntp))
    && (u.ntpEnabled != Some(false) && u.ntpServers.Some? ==>
          forall v :: v in Kids(Get(Get(after, ntp), ["server"])) <==>
                      v != "" && exists i | 0 <= i < |u.ntpServers.value| :: Trim(u.ntpServers.value[i]) == v)
  }

  /** A state policy: as asked with an action; without one all gone, unless the live entry had a log but no action. */
  ghost predicate PolicyAsAsked(was: Slot, now: Slot, e: Fw.PolicyEntry) {
    var action, log, level := ReadText(Get(now, ["action"])), Get(now, ["log"]), ReadText(Get(now, ["log-options", "level"]));
    var wasLevel := ReadText(Get(was, ["log-options", "level"]));
    if Wanted(e.action).Some? then action == Wanted(e.action) && (log.Some? <==> e.log) && level == Wanted(e.level)
    else if ReadText(Get(was, ["action"])).Some? then action.None? && log.None? && level.None?
    else action.None? && (log.Some? <==> Get(was, ["log"]).Some?) && level == wasLevel
  }

  ghost predicate FirewallAsAsked(before: Slot, after: Slot, u: Fw.GlobalOptions) {
    var was, x := Get(before, ["firewall", "global-options"]), Get(after, ["firewall", "global-options"]);
    && ReadText(Get(x, ["all-ping"])) == Wanted(u.allPing)
    && ReadText(Get(x, ["broadcast-ping"])) == Wanted(u.broadcastPing)
    && ReadText(Get(x, ["directed-broadcast"])) == Wanted(u.directedBroadcast)
    && ReadText(Get(x, ["ip-src-route"])) == Wanted(u.ipSrcRoute)
    && ReadText(Get(x, ["ipv6-src-route"])) == Wanted(u.ipv6SrcRoute)
    && ReadText(Get(x, ["ipv6-receive-redirects"])) == Wanted(u.ipv6ReceiveRedirects)
    && ReadText(Get(x, ["receive-redirects"])) == Wanted(u.receiveRedirects)
    && ReadText(Get(x, ["send-redirects"])) == Wanted(u.sendRedirects)
    && ReadText(Get(x, ["log-martians"])) == Wanted(u.logMartians)
    && ReadText(Get(x, ["syn-cookies"])) == Wanted(u.synCookies)
    && ReadText(Get(x, ["twa-hazards-protection"])) == Wanted(u.twaHazardsProtection)
    && ReadText(Get(x, ["apply-to-bridge"])) == Wanted(u.applyToBridge)
    && ReadText(Get(x, ["source-validation"])) == Wanted(u.sourceValidation)
    && ReadText(Get(x, ["ipv6-source-validation"])) == Wanted(u.ipv6SourceValidation)
    && (Get(x, ["resolver-cache"]).Some? <==> u.resolverCache)
    && ReadText(Get(x, ["resolver-interval"])) == Wanted(u.resolverInterval)
    && PolicyAsAsked(Get(was, ["state-policy", "established"]), Get(x, ["state-policy", "established"]), u.established)
    && PolicyAsAsked(Get(was, ["state-policy", "related"]), Get(x, ["state-policy", "related"]), u.related)
    && PolicyAsAsked(Get(was, ["state-policy", "invalid"]), Get(x, ["state-policy", "invalid"]), u.invalid)
  }

  /** How the configuration reads once a form has been committed on top of `before`. */
  ghost predicate AsAsked(before: Slot, after: Slot, v13: bool, form: Form) {
    match form
    case StageRule(b) => RuleAsAsked(after, b)
    case DeleteRule(section, n) => Get(after, ["nat", section, "rule", PrintInt(n)]).None?
    case StageMapping(b) => MappingAsAsked(after, b)
    case DeleteMapping(n) =>
      && Get(after, ["nat", "source", "rule", PrintInt(n)]).None?
      && Get(after, ["nat", "destination", "rule", PrintInt(n)]).None?
    case StageNic(b) => NicAsAsked(after, b)
    case StageVlan(b) => VlanAsAsked(after, b)
    case DeleteVlan(parent, vid) => Get(after, ["interfaces", "ethernet", parent, "vif", PrintInt(vid)]).None?
    case StageSystem(b) => SystemAsAsked(before, after, v13, b)
    case StageFirewall(b) => FirewallAsAsked(before, after, b)
  }

  lemma InterfaceMeans(x: Slot, interface: Option<string>, group: bool)
    requires Nat.ReadInterface(x) == (Wanted(interface), group && Wanted(interface).Some?)
    ensures InterfaceAsAsked(x, interface, group)
  {
    hide Get, ReadText, Wanted;
    KeyOf(x, "name");
    KeyOf(x, "group");
  }

  lemma RuleMeans(after: Slot, b: Nat.RuleUpdate)
    requires
      var x := Get(after, Nat.RuleBase(b.section, b.rule));
      x.Some? && Nat.ReadRule(Nat.InterfaceKey(b.section), x) == Nat.WantedRule(b)
    requires Nat.Moved(b) ==> Get(after, Nat.FormerBase(b)).None?
    ensures RuleAsAsked(after, b)
  {
    hide Get, ReadText, Wanted, Nat.ReadInterface;
    var x := Get(after, Nat.RuleBase(b.section, b.rule));
    InterfaceMeans(Get(x, [Nat.InterfaceKey(b.section)]), b.interface, b.interfaceGroup);
  }

  lemma MappingMeans(after: Slot, b: Pairs.StaticUpdate)
    requires RuleAsAsked(after, Pairs.StaticPair(b).0) && RuleAsAsked(after, Pairs.StaticPair(b).1)
    ensures MappingAsAsked(after, b)
  {
    hide Get, ReadText, InterfaceAsAsked, PrintInt;
  }

  lemma AddressesMean(places: seq<Links.Place>, x: Slot, w: Links.LinkRecord, addresses: seq<string>)
    requires Links.LinkReads(places, x, w) && w.addresses == WantedAll(addresses)
    requires Links.Address in places
    ensures AddressesAsAsked(Get(x, ["address"]), addresses)
  {
    hide Get, Trim, Links.LinkReads, Carries, Values, WantedAll, AsSet;
    Links.AddressesRead(places, x, w, addresses);
    CarriesValues(Get(x, ["address"]));
  }

  lemma NicMeans(after: Slot, b: Links.EthernetUpdate)
    requires
      var x := Get(after, Links.EthBase(b.name));
      x.Some? && Links.LinkReads(Links.NIC_PLACES, x, Links.WantedNic(b))
    ensures NicAsAsked(after, b)
  {
    hide Get, AddressesAsAsked, ReadText, ReadInt, Wanted;
    var x, w := Get(after, Links.EthBase(b.name)), Links.WantedNic(b);
    AddressesMean(Links.NIC_PLACES, x, w, b.addresses);
    assert Links.PlaceReads(w, Links.Description, Get(x, [Links.Key(Links.Description)]));
    assert Links.PlaceReads(w, Links.Mtu, Get(x, [Links.Key(Links.Mtu)]));
    assert Links.PlaceReads(w, Links.Speed, Get(x, [Links.Key(Links.Speed)]));
    assert Links.PlaceReads(w, Links.Duplex, Get(x, [Links.Key(Links.Duplex)]));
    assert Links.PlaceReads(w, Links.Disable, Get(x, [Links.Key(Links.Disable)]));
  }

  lemma VlanMeans(after: Slot, b: Links.VlanUpdate)
    requires
      var x := Get(after, Links.VifBase(b.parent, b.vlanId));
      x.Some? && Links.LinkReads(Links.VIF_PLACES, x, Links.WantedVlan(b))
    requires Links.Moved(b) ==> Get(after, Links.FormerBase(b)).None?
    ensures VlanAsAsked(after, b)
  {
    hide Get, AddressesAsAsked, ReadText, ReadInt, Wanted, PrintInt;
    var x, w := Get(after, Links.VifBase(b.parent, b.vlanId)), Links.WantedVlan(b);
    AddressesMean(Links.VIF_PLACES, x, w, b.addresses);
    assert Links.PlaceReads(w, Links.Description, Get(x, [Links.Key(Links.Description)]));
    assert Links.PlaceReads(w, Links.Mtu, Get(x, [Links.Key(Links.Mtu)]));
    assert Links.PlaceReads(w, Links.Disable, Get(x, [Links.Key(Links.Disable)]));
  }

  lemma SystemMeans(before: Slot, after: Slot, v13: bool, u: Sys.SystemUpdate)
    requires Sys.SystemReads(before, after, v13, u)
    ensures SystemAsAsked(before, after, v13, u)
  {
    hide Get, ReadText, Wanted, SortedKeys, Trim;
    Sys.ServerList(Get(after, Sys.NtpBase(v13)));
  }

  lemma PolicyMeans(was: Slot, now: Slot, e: Fw.PolicyEntry)
    requires Fw.ReadEntry(now) == Fw.Left(Fw.ReadEntry(was), Fw.WantedEntry(e))
    ensures PolicyAsAsked(was, now, e)
  {
    hide Get, ReadText, Wanted;
  }

  lemma FirewallMeans(before: Slot, after: Slot, u: Fw.GlobalOptions)
    requires Fw.Gather(Get(after, Fw.BASE)) == Fw.LeftOptions(Fw.Gather(Get(before, Fw.BASE)), Fw.WantedOptions(u))
    ensures FirewallAsAsked(before, after, u)
  {
    hide Get, ReadText, Wanted, PolicyAsAsked, Fw.ReadEntry, Fw.WantedEntry, Fw.Left;
    var was, x := Get(before, Fw.BASE), Get(after, Fw.BASE);
    PolicyMeans(Get(was, ["state-policy", "established"]), Get(x, ["state-policy", "established"]), u.established);
    PolicyMeans(Get(was, ["state-policy", "related"]), Get(x, ["state-policy", "related"]), u.related);
    PolicyMeans(Get(was, ["state-policy", "invalid"]), Get(x, ["state-policy", "invalid"]), u.invalid);
  }

  /** Where every target of a form reads as the state machine's theorems say, everything the form asks for is so. */
  lemma HoldsMeans(before: Slot, after: Slot, v13: bool, form: Form)
    requires Stage(before, v13, form).Staged?
    requires forall t | t in Stage(before, v13, form).targets :: Holds(before, after, v13, form, t)
    ensures AsAsked(before, after, v13, form)
  {
    hide Stage, Get, PrintInt, Nat.ReadRule, Nat.WantedRule, Links.LinkReads, Links.WantedNic, Links.WantedVlan,
         Sys.SystemReads, Fw.Gather, Fw.LeftOptions, Fw.WantedOptions, RuleAsAsked, MappingAsAsked, NicAsAsked, VlanAsAsked,
         SystemAsAsked, FirewallAsAsked, Pairs.StaticPair;
    match form
    case StageRule(b) => RuleHoldsMeans(before, after, v13, b);
    case DeleteRule(section, n) =>
      StagedTargets(before, v13, form, Rule(section, n));
    case StageMapping(b) => MappingHoldsMeans(before, after, v13, b);
    case DeleteMapping(n) =>
      StagedTargets(before, v13, form, Rule("source", n));
      StagedTargets(before, v13, form, Rule("destination", n));
      assert Holds(before, after, v13, form, Rule("source", n));
      assert Holds(before, after, v13, form, Rule("destination", n));
    case StageNic(b) =>
      StagedTargets(before, v13, form, Nic(b.name));
      NicMeans(after, b);
    case StageVlan(b) => VlanHoldsMeans(before, after, v13, b);
    case DeleteVlan(parent, vid) =>
      StagedTargets(before, v13, form, Vif(parent, vid));
    case StageSystem(b) =>
      StagedTargets(before, v13, form, SystemPage);
      SystemMeans(before, after, v13, b);
    case StageFirewall(b) =>
      StagedTargets(before, v13, form, FirewallPage);
      FirewallMeans(before, after, b);
  }

  lemma RuleHoldsMeans(before: Slot, after: Slot, v13: bool, b: Nat.RuleUpdate)
    requires Stage(before, v13, StageRule(b)).Staged?
    requires forall t | t in Stage(before, v13, StageRule(b)).targets :: Holds(before, after, v13, StageRule(b), t)
    ensures RuleAsAsked(after, b)
  {
    hide Stage, Get, PrintInt, Nat.ReadRule, Nat.WantedRule, RuleAsAsked;
    StagedTargets(before, v13, StageRule(b), Rule(b.section, b.rule));
    assert Holds(before, after, v13, StageRule(b), Rule(b.section, b.rule));
    if Nat.Moved(b) {
      StagedTargets(before, v13, StageRule(b), Rule(b.section, b.originalRule.value));
      assert Holds(before, after, v13, StageRule(b), Rule(b.section, b.originalRule.value));
    }
    RuleMeans(after, b);
  }

  lemma MappingHoldsMeans(before: Slot, after: Slot, v13: bool, b: Pairs.StaticUpdate)
    requires Stage(before, v13, StageMapping(b)).Staged?
    requires forall t | t in Stage(before, v13, StageMapping(b)).targets :: Holds(before, after, v13, StageMapping(b), t)
    ensures MappingAsAsked(after, b)
  {
    hide Stage, Get, PrintInt, Nat.ReadRule, Nat.WantedRule, RuleAsAsked, MappingAsAsked;
    var (x, y) := Pairs.StaticPair(b);
    HalfHoldsMeans(before, after, v13, b, x);
    HalfHoldsMeans(before, after, v13, b, y);
    MappingMeans(after, b);
  }

  lemma HalfHoldsMeans(before: Slot, after: Slot, v13: bool, b: Pairs.StaticUpdate, x: Nat.RuleUpdate)
    requires Stage(before, v13, StageMapping(b)).Staged?
    requires forall t | t in Stage(before, v13, StageMapping(b)).targets :: Holds(before, after, v13, StageMapping(b), t)
    requires x == Pairs.StaticPair(b).0 || x == Pairs.StaticPair(b).1
    ensures RuleAsAsked(after, x)
  {
    hide Stage, Get, PrintInt, Nat.ReadRule, Nat.WantedRule, RuleAsAsked;
    StagedTargets(before, v13, StageMapping(b), Rule(x.section, x.rule));
    assert Holds(before, after, v13, StageMapping(b), Rule(x.section, x.rule));
    if Nat.Moved(x) {
      StagedTargets(before, v13, StageMapping(b), Rule(x.section, x.originalRule.value));
      assert Holds(before, after, v13, StageMapping(b), Rule(x.section, x.originalRule.value));
    }
    RuleMeans(after, x);
  }

  lemma VlanHoldsMeans(before: Slot, after: Slot, v13: bool, b: Links.VlanUpdate)
    requires Stage(before, v13, StageVlan(b)).Staged?
    requires forall t | t in Stage(before, v13, StageVlan(b)).targets :: Holds(before, after, v13, StageVlan(b), t)
    ensures VlanAsAsked(after, b)
  {
    hide Stage, Get, PrintInt, Links.LinkReads, Links.WantedVlan, VlanAsAsked;
    StagedTargets(before, v13, StageVlan(b), Vif(b.parent, b.vlanId));
    assert Holds(before, after, v13, StageVlan(b), Vif(b.parent, b.vlanId));
    if Links.Moved(b) {
      var former := Vif(b.originalParent.value, b.originalVlanId.value);
      StagedTargets(before, v13, StageVlan(b), former);
      assert Holds(before, after, v13, StageVlan(b), former);
    }
    VlanMeans(after, b);
  }

  // ── committed forms ────────────────────────────────────────────────────────

  /** With an empty tray, submitting a form and committing runs its commands. */
  lemma CommitRunsForm(s: State, form: Form, saved: bool)
    requires Tabled(s) && PendingOf(s.rows) == [] && Stage(s.live, s.v13, form).Staged?
    requires Run(DEVICE, s.live, Stage(s.live, s.v13, form).cmds).Applied?
    ensures
      var staged := Next(s, Submit(form));
      && CmdsOf(PendingOf(staged.rows)) == Stage(s.live, s.v13, form).cmds
      && Next(staged, Commit(Accepts(saved))).live == Run(DEVICE, s.live, Stage(s.live, s.v13, form).cmds).slot
  {
    hide Stage, Tabled, InOrder, CountsLinked, ClearedByAny, CommittedOf, Mark, PendingOf, Run;
    var staged := Stage(s.live, s.v13, form);
    var section := SectionOf(staged.targets[0]);
    SubmitTabled(s, staged.targets, section, staged.cmds);
    var rows := NewRows(s.nextRow, section, staged.cmds);
    assert Unaffected(staged.targets, []) == [] && [] + rows == rows;
    assert CmdsOf(rows) == staged.cmds;
    RunNothing(s.live);
  }

  lemma RunNothing(cfg: Slot)
    ensures Run(DEVICE, cfg, []) == Applied(cfg)
  {
  }

  /** On a router without any configuration every form finds the shape it takes for granted. */
  lemma EmptyTreeFits(v13: bool, form: Form)
    ensures FormShape(None, v13, form)
  {
    forall p: Path {
      GetNone(p);
    }
  }

  /** A form that is accepted and committed alone leaves the configuration as it asks. */
  lemma FormCommitted(s: State, form: Form, saved: bool)
    requires Tabled(s) && PendingOf(s.rows) == []
    requires Stage(s.live, s.v13, form).Staged? && FormShape(s.live, s.v13, form)
    ensures AsAsked(s.live, Next(Next(s, Submit(form)), Commit(Accepts(saved))).live, s.v13, form)
  {
    hide Stage, Tabled, FormShape, Holds, AsAsked, Next, Run, PendingOf;
    var staged := Stage(s.live, s.v13, form);
    AloneHolds(s.live, s.v13, form, staged.targets[0]);
    CommitRunsForm(s, form, saved);
    forall t | t in staged.targets
      ensures Holds(s.live, Run(DEVICE, s.live, staged.cmds).slot, s.v13, form, t)
    {
      AloneHolds(s.live, s.v13, form, t);
    }
    HoldsMeans(s.live, Run(DEVICE, s.live, staged.cmds).slot, s.v13, form);
  }

  /**
   After any run of stagings, discard-alls and failed commits, a commit that the device takes leaves the configuration
   as asked by every form that is the last one about its targets.
   */
  lemma LastFormsCommitted(initial: Slot, s: State, reqs: seq<Request>, saved: bool, form: Form)
    requires Sound(initial, s) && PendingOf(s.rows) == [] && StagingRun(s, reqs)
    requires AllShaped(s.live, s.v13, reqs)
    requires PendingOf(RunAll(s, reqs).rows) != []
    requires Stage(s.live, s.v13, form).Staged?
    requires forall t | t in Stage(s.live, s.v13, form).targets :: LastAbout(s.live, s.v13, reqs, t) == Some(form)
    ensures AsAsked(s.live, Next(RunAll(s, reqs), Commit(Accepts(saved))).live, s.v13, form)
  {
    hide Stage, Sound, Holds, AsAsked, Next, PendingOf, RunAll, StagingRun, AllShaped, LastAbout;
    var after := Next(RunAll(s, reqs), Commit(Accepts(saved)));
    forall t | t in Stage(s.live, s.v13, form).targets
      ensures Holds(s.live, after.live, s.v13, form, t)
    {
      CommittedReads(initial, s, reqs, saved, t);
    }
    HoldsMeans(s.live, after.live, s.v13, form);
  }
}
