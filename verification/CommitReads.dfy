/** After a commit, every page reads as the last form about it asked. */
module CommitReads {
  import opened Options
  import opened Text
  import opened ConfigTree
  import opened Fields
  import opened DeviceSchema
  import opened Batches
  import opened ChangeReview
  import opened ReviewLedger
  import opened ReviewRace
  import opened ReviewTargets
  import opened LastStaging
  import opened CommitMeaning
  import Nat = NatRules
  import Pairs = StaticNatRoundTrip
  import Links = Interfaces
  import Fw = FirewallOptions
  import Sys = SystemConfig

  /** What a form takes for granted about the live tree: objects on the way, and free numbers for moves. */
  ghost predicate FormShape(cfg: Slot, v13: bool, form: Form) {
    match form
    case StageRule(b) => Nat.ValidSection(b.section) ==> Pairs.Ready(cfg, b)
    case DeleteRule(s, n) => Walkable(cfg, Nat.RuleBase(s, n))
    case StageMapping(b) => Pairs.Ready(cfg, Pairs.StaticPair(b).0) && Pairs.Ready(cfg, Pairs.StaticPair(b).1)
    case DeleteMapping(n) => Walkable(cfg, Nat.RuleBase("source", n)) && Walkable(cfg, Nat.RuleBase("destination", n))
    case StageNic(b) => Links.ObjectAt(cfg, Links.EthBase(b.name))
    case StageVlan(b) =>
      && Links.ObjectAt(cfg, Links.VifBase(b.parent, b.vlanId))
      && (Links.Moved(b) ==>
            Get(cfg, Links.VifBase(b.parent, b.vlanId)).None? && Walkable(cfg, Links.FormerBase(b)))
    case DeleteVlan(p, v) => Walkable(cfg, Links.VifBase(p, v))
    case StageSystem(b) => Sys.SystemShape(cfg, v13)
    case StageFirewall(b) => Walkable(cfg, Fw.BASE) && Fw.SectionShape(Get(cfg, Fw.BASE))
  }

  /** How a target reads in `after` once `form` has been committed on top of `before`. */
  ghost predicate Holds(before: Slot, after: Slot, v13: bool, form: Form, t: Target) {
    match form
    case StageRule(b) => RuleHolds(after, b, t)
    case DeleteRule(_, _) => t.Rule? ==> Get(after, Nat.RuleBase(t.section, t.num)).None?
    case StageMapping(b) =>
      t.Rule? ==> RuleHolds(after, if t.section == "source" then Pairs.StaticPair(b).0 else Pairs.StaticPair(b).1, t)
    case DeleteMapping(_) => t.Rule? ==> Get(after, Nat.RuleBase(t.section, t.num)).None?
    case StageNic(b) =>
      t.Nic? ==>
        var x := Get(after, Links.EthBase(t.name));
        x.Some? && Links.LinkReads(Links.NIC_PLACES, x, Links.WantedNic(b))
    case StageVlan(b) =>
      t.Vif? ==>
        var x := Get(after, Links.VifBase(t.parent, t.vid));
        if t == Vif(b.parent, b.vlanId) then x.Some? && Links.LinkReads(Links.VIF_PLACES, x, Links.WantedVlan(b))
        else x.None?
    case DeleteVlan(_, _) => t.Vif? ==> Get(after, Links.VifBase(t.parent, t.vid)).None?
    case StageSystem(b) => Sys.SystemReads(before, after, v13, b)
    case StageFirewall(b) =>
      Fw.Gather(Get(after, Fw.BASE)) == Fw.LeftOptions(Fw.Gather(Get(before, Fw.BASE)), Fw.WantedOptions(b))
  }

  /** The rule the form is about reads as asked; the number it came from is gone. */
  ghost predicate RuleHolds(after: Slot, b: Nat.RuleUpdate, t: Target) {
    t.Rule? && t.section == b.section ==>
      var x := Get(after, Nat.RuleBase(t.section, t.num));
      if t.num == b.rule then x.Some? && Nat.ReadRule(Nat.InterfaceKey(b.section), x) == Nat.WantedRule(b)
      else x.None?
  }

  // ── one form alone ─────────────────────────────────────────────────────────

  lemma DeletesOne(cfg: Slot, base: Path)
    requires SchemaAt(DEVICE, base).Some? && Walkable(cfg, base)
    ensures
      var r := Run(DEVICE, cfg, [Cmd(Delete, base)]);
      && r.Applied? && Get(r.slot, base).None?
      && (forall q | Apart(base, q) :: Get(r.slot, q) == Get(cfg, q) && (Walkable(cfg, q) ==> Walkable(r.slot, q)))
  {
    assert base + [] == base;
    StepBelow(DEVICE, cfg, base, Cmd(Delete, []));
    RunOne(DEVICE, cfg, Cmd(Delete, base));
    GetPut(cfg, base, None);
    forall q | Apart(base, q) {
      GetPutApart(cfg, base, None, q);
    }
  }

  lemma DeletesTwo(cfg: Slot, a: Path, b: Path)
    requires SchemaAt(DEVICE, a).Some? && Walkable(cfg, a) && SchemaAt(DEVICE, b).Some? && Walkable(cfg, b)
    requires Apart(a, b) && Apart(b, a)
    ensures
      var r := Run(DEVICE, cfg, [Cmd(Delete, a), Cmd(Delete, b)]);
      r.Applied? && Get(r.slot, a).None? && Get(r.slot, b).None?
  {
    DeletesOne(cfg, a);
    var mid := Run(DEVICE, cfg, [Cmd(Delete, a)]).slot;
    DeletesOne(mid, b);
    RunAppend(DEVICE, cfg, [Cmd(Delete, a)], [Cmd(Delete, b)]);
    assert [Cmd(Delete, a)] + [Cmd(Delete, b)] == [Cmd(Delete, a), Cmd(Delete, b)];
  }

  lemma DeletesMapping(cfg: Slot, num: u32)
    requires Walkable(cfg, Nat.RuleBase("source", num)) && Walkable(cfg, Nat.RuleBase("destination", num))
    ensures
      var a, b := Nat.RuleBase("source", num), Nat.RuleBase("destination", num);
      var r := Run(DEVICE, cfg, [Cmd(Delete, a), Cmd(Delete, b)]);
      r.Applied? && Get(r.slot, a).None? && Get(r.slot, b).None?
  {
    hide Nat.RuleBase, Run, Get, Walkable;
    Nat.RuleSchema("source", num);
    Nat.RuleSchema("destination", num);
    Nat.RulesApart("source", num, "destination", num);
    Nat.RulesApart("destination", num, "source", num);
    DeletesTwo(cfg, Nat.RuleBase("source", num), Nat.RuleBase("destination", num));
  }

  lemma MappingHolds(cfg: Slot, v13: bool, b: Pairs.StaticUpdate, t: Target)
    requires FormShape(cfg, v13, StageMapping(b)) && Stage(cfg, v13, StageMapping(b)).Staged?
    requires t in Stage(cfg, v13, StageMapping(b)).targets
    ensures
      var alone := Alone(cfg, v13, StageMapping(b));
      alone.Applied? && Holds(cfg, alone.slot, v13, StageMapping(b), t)
  {
    hide Get, Walkable, Nat.DiffNat44, Nat.ReadRule, Nat.WantedRule, Nat.WellFormedRule, Nat.RuleBase, Run, SchemaAt;
    Pairs.BothHalves(cfg, Pairs.StaticPair(b).0, Pairs.StaticPair(b).1);
  }

  lemma RuleFormHolds(cfg: Slot, v13: bool, b: Nat.RuleUpdate, t: Target)
    requires FormShape(cfg, v13, StageRule(b)) && Stage(cfg, v13, StageRule(b)).Staged?
    requires t in Stage(cfg, v13, StageRule(b)).targets
    ensures
      var alone := Alone(cfg, v13, StageRule(b));
      alone.Applied? && Holds(cfg, alone.slot, v13, StageRule(b), t)
  {
    hide Get, Walkable, Nat.DiffNat44, Nat.ReadRule, Nat.WantedRule, Nat.WellFormedRule, Nat.RuleBase, Run, SchemaAt;
    Nat.DiffNat44Correct(cfg, b);
  }

  lemma VlanHolds(cfg: Slot, v13: bool, b: Links.VlanUpdate, t: Target)
    requires FormShape(cfg, v13, StageVlan(b)) && Stage(cfg, v13, StageVlan(b)).Staged?
    requires t in Stage(cfg, v13, StageVlan(b)).targets
    ensures
      var alone := Alone(cfg, v13, StageVlan(b));
      alone.Applied? && Holds(cfg, alone.slot, v13, StageVlan(b), t)
  {
    hide Get, Walkable, Links.DiffVlan, Links.LinkReads, Links.VifBase, Run, SchemaAt;
    Links.DiffVlanCorrect(cfg, b);
  }

  /** A form alone is accepted, and its targets read as it asked. */
  lemma AloneHolds(cfg: Slot, v13: bool, form: Form, t: Target)
    requires FormShape(cfg, v13, form) && Stage(cfg, v13, form).Staged?
    requires t in Stage(cfg, v13, form).targets
    ensures Alone(cfg, v13, form).Applied? && Holds(cfg, Alone(cfg, v13, form).slot, v13, form, t)
  {
    hide Get, Walkable, Nat.DiffNat44, Nat.ReadRule, Nat.WantedRule, Nat.WellFormedRule, Nat.RuleBase, Run, SchemaAt,
         Links.DiffVlan, Links.DiffEthernet, Links.LinkReads, Links.VifBase, Links.EthBase, Sys.DiffSystem,
         Sys.SystemReads, Sys.SystemShape, Fw.Gather, Fw.DiffGlobalOptions, Fw.LeftOptions, Fw.SectionShape;
    match form
    case StageRule(b) => RuleFormHolds(cfg, v13, b, t);
    case DeleteRule(section, num) =>
      Nat.RuleSchema(section, num);
      DeletesOne(cfg, Nat.RuleBase(section, num));
    case StageMapping(b) => MappingHolds(cfg, v13, b, t);
    case DeleteMapping(num) => DeletesMapping(cfg, num);
    case StageNic(b) => Links.DiffEthernetCorrect(cfg, b);
    case StageVlan(b) => VlanHolds(cfg, v13, b, t);
    case DeleteVlan(parent, vid) =>
      Links.LinkSchemas(parent, vid);
      DeletesOne(cfg, Links.VifBase(parent, vid));
    case StageSystem(b) => Sys.DiffSystemCorrect(cfg, v13, b);
    case StageFirewall(b) => Fw.DiffGlobalOptionsCorrect(cfg, b);
  }

  // ── the whole run ──────────────────────────────────────────────────────────

  lemma NicReachable(cfg: Slot, v13: bool, name: string)
    requires Links.ObjectAt(cfg, Links.EthBase(name))
    ensures Reachable(cfg, v13, Nic(name))
  {
    forall f | f in Feet(v13, Nic(name))
      ensures Walkable(cfg, f)
    {
      var p :| p in Links.NIC_PLACES && f == NicFoot(name, p);
      GetSplit(cfg, Links.EthBase(name), [Links.Key(p)]);
      assert [Links.Key(p)][1..] == [];
    }
  }

  lemma SystemReachable(cfg: Slot, v13: bool)
    requires Sys.SystemShape(cfg, v13)
    ensures Reachable(cfg, v13, SystemPage)
  {
    hide Sys.SystemShape;
    forall f | f in Feet(v13, SystemPage)
      ensures Walkable(cfg, f)
    {
      var i :| 0 <= i < 4 && f == Sys.SystemPaths(v13)[i];
      Sys.SystemPlaces(cfg, v13, i);
    }
  }

  lemma RulesReachable(cfg: Slot, v13: bool, b: Nat.RuleUpdate, t: Target)
    requires Pairs.Ready(cfg, b) && t in RuleTargets(b.section, b.rule, b.originalRule)
    ensures Reachable(cfg, v13, t)
  {
    hide Get, Walkable, Nat.WellFormedRule, PrintInt;
  }

  lemma VlanReachable(cfg: Slot, v13: bool, b: Links.VlanUpdate, t: Target)
    requires FormShape(cfg, v13, StageVlan(b))
    requires t == Vif(b.parent, b.vlanId) ||
             (Links.Moved(b) && t == Vif(b.originalParent.value, b.originalVlanId.value))
    ensures Reachable(cfg, v13, t)
  {
    hide Get, Walkable, PrintInt;
  }

  lemma TargetReachable(cfg: Slot, v13: bool, form: Form, t: Target)
    requires FormShape(cfg, v13, form) && Stage(cfg, v13, form).Staged?
    requires t in Stage(cfg, v13, form).targets
    ensures Reachable(cfg, v13, t)
  {
    hide Get, Walkable, Nat.DiffNat44, Nat.WellFormedRule, Links.DiffVlan, Links.DiffEthernet, Sys.DiffSystem,
         Sys.SystemShape, Sys.ReadSystem, Fw.Gather, Fw.DiffGlobalOptions, Fw.SectionShape, Links.EthernetTree, Trim,
         Pairs.DiffStatic, PrintInt, RuleTargets, Pairs.Ready;
    match form
    case StageRule(b) => RulesReachable(cfg, v13, b, t);
    case StageMapping(b) =>
      var (x, y) := Pairs.StaticPair(b);
      if t in RuleTargets("source", b.rule, b.originalRule) {
        RulesReachable(cfg, v13, x, t);
      } else {
        RulesReachable(cfg, v13, y, t);
      }
    case StageNic(b) => NicReachable(cfg, v13, b.name);
    case StageVlan(b) => VlanReachable(cfg, v13, b, t);
    case StageSystem(_) => SystemReachable(cfg, v13);
    case _ =>
  }

  /** A form whose places have the assumed shape is ready to be committed. */
  lemma ShapedIsReady(cfg: Slot, v13: bool, form: Form)
    requires FormShape(cfg, v13, form)
    ensures Ready(cfg, v13, form)
  {
    hide FormShape, Stage, Holds, Reachable;
    var staged := Stage(cfg, v13, form);
    if staged.Staged? {
      StagedPlaced(cfg, v13, form);
      AloneHolds(cfg, v13, form, staged.targets[0]);
      forall t | t in staged.targets
        ensures Reachable(cfg, v13, t)
      {
        TargetReachable(cfg, v13, form, t);
      }
    }
  }

  lemma LinkReadsAt(places: seq<Links.Place>, x: Slot, y: Slot, w: Links.LinkRecord)
    requires Links.LinkReads(places, x, w)
    requires forall p | p in places :: Get(y, [Links.Key(p)]) == Get(x, [Links.Key(p)])
    ensures Links.LinkReads(places, y, w)
  {
  }

  lemma RuleTransfers(x: Slot, y: Slot, v13: bool, b: Nat.RuleUpdate, t: Target)
    requires RuleHolds(x, b, t) && forall f | f in Feet(v13, t) :: Get(y, f) == Get(x, f)
    ensures RuleHolds(y, b, t)
  {
    hide Get, Nat.ReadRule, Nat.WantedRule, Nat.RuleBase;
    if t.Rule? {
      assert Nat.RuleBase(t.section, t.num) in Feet(v13, t);
    }
  }

  lemma NicTransfers(x: Slot, y: Slot, v13: bool, name: string, w: Links.LinkRecord)
    requires Links.LinkReads(Links.NIC_PLACES, Get(x, Links.EthBase(name)), w)
    requires forall f | f in Feet(v13, Nic(name)) :: Get(y, f) == Get(x, f)
    ensures Links.LinkReads(Links.NIC_PLACES, Get(y, Links.EthBase(name)), w)
  {
    hide Get, Links.LinkReads, Links.EthBase;
    var base := Links.EthBase(name);
    forall p | p in Links.NIC_PLACES
      ensures Get(Get(y, base), [Links.Key(p)]) == Get(Get(x, base), [Links.Key(p)])
    {
      assert NicFoot(name, p) in Feet(v13, Nic(name));
      GetSplit(y, base, [Links.Key(p)]);
      GetSplit(x, base, [Links.Key(p)]);
    }
    LinkReadsAt(Links.NIC_PLACES, Get(x, base), Get(y, base), w);
  }

  lemma SystemTransfers(before: Slot, x: Slot, y: Slot, v13: bool, b: Sys.SystemUpdate)
    requires Sys.SystemReads(before, x, v13, b)
    requires forall f | f in Feet(v13, SystemPage) :: Get(y, f) == Get(x, f)
    ensures Sys.SystemReads(before, y, v13, b)
  {
    hide Get, Sys.NtpBase, Wanted, TrimmedEntries, Sys.ServersOf;
    assert Sys.SystemPaths(v13)[0] in Feet(v13, SystemPage) && Sys.SystemPaths(v13)[1] in Feet(v13, SystemPage);
    assert Sys.SystemPaths(v13)[2] in Feet(v13, SystemPage) && Sys.SystemPaths(v13)[3] in Feet(v13, SystemPage);
    assert Sys.ReadSystem(y, v13) == Sys.ReadSystem(x, v13);
  }

  /** How a target reads depends on its places only. */
  lemma HoldsTransfers(before: Slot, x: Slot, y: Slot, v13: bool, form: Form, t: Target)
    requires Holds(before, x, v13, form, t)
    requires form.StageSystem? ==> t.SystemPage?
    requires form.StageFirewall? ==> t.FirewallPage?
    requires forall f | f in Feet(v13, t) :: Get(y, f) == Get(x, f)
    requires form.StageNic? && t.Nic? ==> Get(y, Links.EthBase(t.name)).Some?
    ensures Holds(before, y, v13, form, t)
  {
    hide Get, RuleHolds, Links.LinkReads, Sys.SystemReads, Fw.Gather, Fw.LeftOptions, Nat.RuleBase,
         Links.VifBase, Links.EthBase, Links.WantedNic, Links.WantedVlan, Fw.WantedOptions;
    match form
    case StageRule(b) => RuleTransfers(x, y, v13, b, t);
    case StageMapping(b) =>
      if t.Rule? {
        RuleTransfers(x, y, v13, if t.section == "source" then Pairs.StaticPair(b).0 else Pairs.StaticPair(b).1, t);
      }
    case StageNic(b) =>
      if t.Nic? {
        NicTransfers(x, y, v13, t.name, Links.WantedNic(b));
      }
    case StageSystem(b) => SystemTransfers(before, x, y, v13, b);
    case StageFirewall(_) => assert Fw.BASE in Feet(v13, t);
    case DeleteRule(_, _) => assert t.Rule? ==> Nat.RuleBase(t.section, t.num) in Feet(v13, t);
    case DeleteMapping(_) => assert t.Rule? ==> Nat.RuleBase(t.section, t.num) in Feet(v13, t);
    case StageVlan(_) => assert t.Vif? ==> Links.VifBase(t.parent, t.vid) in Feet(v13, t);
    case DeleteVlan(_, _) => assert t.Vif? ==> Links.VifBase(t.parent, t.vid) in Feet(v13, t);
  }

  lemma TargetKind(cfg: Slot, v13: bool, form: Form, t: Target)
    requires Stage(cfg, v13, form).Staged? && t in Stage(cfg, v13, form).targets
    ensures form.StageSystem? ==> t.SystemPage?
    ensures form.StageFirewall? ==> t.FirewallPage?
    ensures form.StageNic? ==> t == Nic(form.nic.name)
  {
    hide Nat.DiffNat44, Links.DiffVlan, Links.DiffEthernet, Sys.DiffSystem, Fw.Gather, Fw.DiffGlobalOptions, Get;
  }

  // ── a NIC's own node ───────────────────────────────────────────────────────

  /** A form that stages one command has that command among the pending rows while it is the last one about a target. */
  lemma OnlyCommandPends(cfg: Slot, v13: bool, reqs: seq<Request>, open: seq<Row>, t: Target, c: Cmd)
    requires LastPending(cfg, v13, reqs, open) && LastAbout(cfg, v13, reqs, t).Some?
    requires
      var staged := Stage(cfg, v13, LastAbout(cfg, v13, reqs, t).value);
      staged.Staged? && staged.cmds == [c] && Clears(t, SectionOf(staged.targets[0]), c.path)
    ensures c in CmdsOf(open)
  {
    hide Stage, Clears, LastAbout, AllOwned;
    var staged := Stage(cfg, v13, LastAbout(cfg, v13, reqs, t).value);
    var rows := NewRows(0, SectionOf(staged.targets[0]), [c]);
    KeepAll((r: Row) => Clears(t, r.section, r.cmd.path), rows);
    assert RowsOf(t, rows) == rows;
    assert CmdsOf(RowsOf(t, open))[0] == CmdsOf(rows)[0] == c;
    var r := RowsOf(t, open)[0];
    KeepIn((r: Row) => Clears(t, r.section, r.cmd.path), open);
    assert r in RowsOf(t, open);
    var i :| 0 <= i < |open| && open[i] == r;
    assert CmdsOf(open)[i] == c;
  }

  /** After the commit the NIC of the last form about it exists, even when the form leaves everything blank. */
  lemma NicExists(cfg: Slot, after: Slot, v13: bool, reqs: seq<Request>, open: seq<Row>, t: Target)
    requires LastPending(cfg, v13, reqs, open) && LastAbout(cfg, v13, reqs, t).Some?
    requires LastAbout(cfg, v13, reqs, t).value.StageNic?
    requires
      var feet := AllFeet(v13, Mentioned(cfg, v13, reqs));
      && (forall c | c in CmdsOf(open) && Opening(DEVICE, feet, c) :: Get(after, c.path).Some?)
      && (forall q | Above(feet, q) && Get(cfg, q).Some? :: Get(after, q).Some?)
    requires t.Nic?
    requires Links.LinkReads(Links.NIC_PLACES, Get(after, Links.EthBase(t.name)),
                             Links.WantedNic(LastAbout(cfg, v13, reqs, t).value.nic))
    ensures Get(after, Links.EthBase(t.name)).Some?
  {
    hide Stage, LastPending, LastAbout, Links.LinkReads, Get, Mentioned, AllFeet, Above, Inner, SchemaAt,
         Links.DiffEthernet, Links.WantedNic, Links.EthernetTree;
    var form := LastAbout(cfg, v13, reqs, t).value;
    var base := Links.EthBase(t.name);
    NicAbove(v13, Mentioned(cfg, v13, reqs), t.name);
    LastForm(cfg, v13, reqs, t);
    TargetKind(cfg, v13, form, t);
    if Get(cfg, base).None? && Links.WantedNic(form.nic) == Links.BLANK {
      BlankNicStaging(cfg, v13, form.nic);
      OnlyCommandPends(cfg, v13, reqs, open, t, Cmd(Set, base));
    } else if Get(after, base).None? && Get(cfg, base).None? {
      Links.AbsentReadsBlank(Links.WantedNic(form.nic));
    }
  }

  lemma BlankNicStaging(cfg: Slot, v13: bool, b: Links.EthernetUpdate)
    requires Stage(cfg, v13, StageNic(b)).Staged?
    requires Get(cfg, Links.EthBase(b.name)).None? && Links.WantedNic(b) == Links.BLANK
    ensures Stage(cfg, v13, StageNic(b)).cmds == [Cmd(Set, Links.EthBase(b.name))]
    ensures Clears(Nic(b.name), SectionOf(Stage(cfg, v13, StageNic(b)).targets[0]), Links.EthBase(b.name))
  {
    hide Get, Trim, Links.DiffEthernet, Links.EthernetTree, Links.WantedNic;
    Links.LiveNic(cfg, b.name);
    Links.BlankNicDiff(Links.EthernetTree(cfg), b);
  }

  // ── the whole run, read back ───────────────────────────────────────────────

  /** The last form about each target has the assumed shape; forms that were restaged or discarded do not matter. */
  ghost predicate AllShaped(cfg: Slot, v13: bool, reqs: seq<Request>) {
    forall t | LastAbout(cfg, v13, reqs, t).Some? :: FormShape(cfg, v13, LastAbout(cfg, v13, reqs, t).value)
  }

  /**
   After any run of stagings, discard-alls and failed commits from an empty tray, a commit that the device takes
   succeeds, and every rule, VLAN, NIC and page with a pending form reads as the last form about it asked.
   */
  lemma CommittedReads(initial: Slot, s: State, reqs: seq<Request>, saved: bool, t: Target)
    requires Sound(initial, s) && PendingOf(s.rows) == [] && StagingRun(s, reqs)
    requires AllShaped(s.live, s.v13, reqs)
    requires PendingOf(RunAll(s, reqs).rows) != []
    requires LastAbout(s.live, s.v13, reqs, t).Some?
    ensures
      var late := RunAll(s, reqs);
      var after := Next(late, Commit(Accepts(saved)));
      && |after.commits| == |late.commits| + 1 && after.commits[|late.commits|].success
      && Holds(s.live, after.live, s.v13, LastAbout(s.live, s.v13, reqs, t).value, t)
  {
    hide FormShape, Stage, Holds, Next, Tabled, Replays, PendingOf, Feet, Alone, LastAbout, RunAll, StagingRun, Get,
         Ready, Mentioned, AllFeet, LastPending, Above, Opening, Beside;
    ShapedRunsReady(s, reqs);
    CommitPutsLast(initial, s, reqs, saved);
    LastForm(s.live, s.v13, reqs, t);
    var form := LastAbout(s.live, s.v13, reqs, t).value;
    AloneHolds(s.live, s.v13, form, t);
    TargetKind(s.live, s.v13, form, t);
    var alone, after := Alone(s.live, s.v13, form).slot, Next(RunAll(s, reqs), Commit(Accepts(saved)));
    forall f | f in Feet(s.v13, t)
      ensures Get(after.live, f) == Get(alone, f)
    {
      assert EndsAsLast(s.live, s.v13, reqs, after.live, t, f);
    }
    if form.StageNic? {
      HoldsNic(s.live, alone, s.v13, form, t);
      NicTransfers(alone, after.live, s.v13, t.name, Links.WantedNic(form.nic));
      PendingIsLast(s, reqs);
      NicExists(s.live, after.live, s.v13, reqs, PendingOf(RunAll(s, reqs).rows), t);
    }
    HoldsTransfers(s.live, alone, after.live, s.v13, form, t);
  }

  lemma HoldsNic(before: Slot, x: Slot, v13: bool, form: Form, t: Target)
    requires form.StageNic? && t.Nic? && Holds(before, x, v13, form, t)
    ensures Links.LinkReads(Links.NIC_PLACES, Get(x, Links.EthBase(t.name)), Links.WantedNic(form.nic))
  {
  }

  // ── the same form again ────────────────────────────────────────────────────

  /** The form that leaves things where they now are: the number it moved to, without the one it came from. */
  function Again(form: Form): Form {
    match form
    case StageRule(b) => StageRule(b.(originalRule := None))
    case StageMapping(b) => StageMapping(b.(originalRule := None))
    case StageVlan(b) => StageVlan(b.(originalParent := None))
    case _ => form
  }

  /** The targets a form sets, under their new numbers; a deletion sets none. */
  function SetBy(form: Form): seq<Target> {
    match form
    case StageRule(b) => [Rule(b.section, b.rule)]
    case StageMapping(b) => [Rule("source", b.rule), Rule("destination", b.rule)]
    case StageNic(b) => [Nic(b.name)]
    case StageVlan(b) => [Vif(b.parent, b.vlanId)]
    case StageSystem(_) => [SystemPage]
    case StageFirewall(_) => [FirewallPage]
    case _ => []
  }

  /** Where a form's targets read as it asked, staging it again stages no command. */
  lemma HoldsIsFixpoint(before: Slot, after: Slot, v13: bool, form: Form)
    requires SetBy(form) != [] && forall t | t in SetBy(form) :: Holds(before, after, v13, form, t)
    requires Stage(after, v13, Again(form)).Staged?
    ensures Stage(after, v13, Again(form)).cmds == []
  {
    hide Get, Nat.DiffNat44, Nat.ReadRule, Nat.WantedRule, Nat.RuleBase, Links.DiffVlan, Links.DiffEthernet,
         Links.LinkReads, Links.VifBase, Links.EthBase, Sys.DiffSystem, Sys.SystemReads, Fw.Gather,
         Fw.DiffGlobalOptions, Fw.LeftOptions;
    match form
    case StageRule(b) =>
      assert Rule(b.section, b.rule) in SetBy(form);
      Nat.DiffNat44Fixpoint(after, b);
    case StageMapping(b) => MappingFixpoint(before, after, v13, b);
    case StageNic(b) =>
      assert Nic(b.name) in SetBy(form);
      Links.DiffEthernetFixpoint(after, b);
    case StageVlan(b) =>
      assert Vif(b.parent, b.vlanId) in SetBy(form);
      Links.DiffVlanFixpoint(after, b);
    case StageSystem(b) =>
      assert SystemPage in SetBy(form);
      Sys.DiffSystemFixpoint(before, after, v13, b);
    case StageFirewall(b) =>
      assert FirewallPage in SetBy(form);
      Fw.DiffGlobalOptionsFixpoint(Fw.Gather(Get(before, Fw.BASE)), b);
    case _ =>
  }

  lemma MappingFixpoint(before: Slot, after: Slot, v13: bool, b: Pairs.StaticUpdate)
    requires forall t | t in SetBy(StageMapping(b)) :: Holds(before, after, v13, StageMapping(b), t)
    ensures Pairs.DiffStatic(Get(after, ["nat"]), b.(originalRule := None)) == []
  {
    hide Get, Nat.DiffNat44, Nat.ReadRule, Nat.WantedRule, Nat.RuleBase;
    var (x, y) := Pairs.StaticPair(b);
    assert Rule("source", b.rule) in SetBy(StageMapping(b)) && Rule("destination", b.rule) in SetBy(StageMapping(b));
    Nat.DiffNat44Fixpoint(after, x);
    Nat.DiffNat44Fixpoint(after, y);
    assert Pairs.StaticPair(b.(originalRule := None)).0 == x.(originalRule := None);
    assert Pairs.StaticPair(b.(originalRule := None)).1 == y.(originalRule := None);
  }

  /**
   After the commit the page is at rest: submitting a form again that was the last one about the targets it sets changes
   neither the tray nor anything else.
   */
  lemma ResubmitStagesNothing(initial: Slot, s: State, reqs: seq<Request>, saved: bool, form: Form)
    requires Sound(initial, s) && PendingOf(s.rows) == [] && StagingRun(s, reqs)
    requires AllShaped(s.live, s.v13, reqs)
    requires PendingOf(RunAll(s, reqs).rows) != []
    requires SetBy(form) != [] && forall t | t in SetBy(form) :: LastAbout(s.live, s.v13, reqs, t) == Some(form)
    ensures
      var after := Next(RunAll(s, reqs), Commit(Accepts(saved)));
      Next(after, Submit(Again(form))) == after
  {
    hide FormShape, Stage, Holds, Sound, Tabled, PendingOf, Feet, Alone, LastAbout, RunAll, StagingRun, Get, Ready,
         Mentioned, AllFeet, AllShaped, SetBy, Again, Next, CommittedOf;
    var after := Next(RunAll(s, reqs), Commit(Accepts(saved)));
    forall t | t in SetBy(form)
      ensures Holds(s.live, after.live, s.v13, form, t)
    {
      CommittedReads(initial, s, reqs, saved, t);
    }
    CommittedTable(initial, s, reqs, saved);
    if Stage(after.live, after.v13, Again(form)).Staged? {
      HoldsIsFixpoint(s.live, after.live, s.v13, form);
    }
    NothingStaged(after, Again(form));
  }

  /** After the commit every row is committed. */
  lemma CommittedTable(initial: Slot, s: State, reqs: seq<Request>, saved: bool)
    requires Sound(initial, s) && PendingOf(s.rows) == [] && StagingRun(s, reqs)
    requires AllShaped(s.live, s.v13, reqs)
    requires PendingOf(RunAll(s, reqs).rows) != []
    ensures
      var after := Next(RunAll(s, reqs), Commit(Accepts(saved)));
      Tabled(after) && PendingOf(after.rows) == [] && after.v13 == s.v13
  {
    hide FormShape, Tabled, Replays, Stage, LastAbout, StagingRun, Get, Ready, Mentioned, AllFeet, Next, Run, Takes;
    ShapedRunsReady(s, reqs);
    CommitPutsLast(initial, s, reqs, saved);
    RunsSound(initial, s, reqs);
    RunTabled(s, reqs);
    NextTabled(RunAll(s, reqs), Commit(Accepts(saved)));
  }

  lemma ShapedRunsReady(s: State, reqs: seq<Request>)
    requires AllShaped(s.live, s.v13, reqs)
    ensures AllReady(s.live, s.v13, reqs)
  {
    hide FormShape, Ready, LastAbout;
    forall u | LastAbout(s.live, s.v13, reqs, u).Some?
      ensures Ready(s.live, s.v13, LastAbout(s.live, s.v13, reqs, u).value)
    {
      ShapedIsReady(s.live, s.v13, LastAbout(s.live, s.v13, reqs, u).value);
    }
  }

  lemma NothingStaged(s: State, form: Form)
    requires Tabled(s) && PendingOf(s.rows) == []
    requires Stage(s.live, s.v13, form).Staged? ==> Stage(s.live, s.v13, form).cmds == []
    ensures Next(s, Submit(form)) == s
  {
    hide Stage, Clears, Keep, InOrder, CountsLinked;
    var staged := Stage(s.live, s.v13, form);
    if staged.Staged? {
      assert s.rows == CommittedOf(s.rows) + [] == CommittedOf(s.rows);
      KeepAll((r: Row) => r.status.Committed? || !ClearedByAny(staged.targets, r), s.rows);
      assert NewRows(s.nextRow, SectionOf(staged.targets[0]), []) == [] && s.rows + [] == s.rows;
    }
  }
}
