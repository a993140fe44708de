/** Forms about different targets stay out of each other's way, in the tray and in the configuration. */
module FormFrames {
  import opened Text
  import opened ConfigTree
  import opened DeviceSchema
  import opened Batches
  import opened Commuting
  import opened ChangeReview
  import opened ReviewLedger
  import opened ReviewTargets
  import opened LastStaging
  import opened CommitMeaning
  import Nat = NatRules
  import Links = Interfaces
  import Fw = FirewallOptions
  import Sys = SystemConfig

  /** In any state reached from an empty table, staging a form leaves the pending rows of every other target. */
  lemma OthersStayPending(initial: Slot, start: State, reqs: seq<Request>, form: Form, t: Target)
    requires Fresh(initial, start)
    requires
      var s := RunAll(start, reqs);
      Stage(s.live, s.v13, form).Staged? ==> t !in Stage(s.live, s.v13, form).targets
    ensures
      var s := RunAll(start, reqs);
      RowsOf(t, PendingOf(Next(s, Submit(form)).rows)) == RowsOf(t, PendingOf(s.rows))
  {
    hide Stage, Clears, Placed, Tabled, Replays, RunAll;
    FreshSound(initial, start);
    RunOwned(start, reqs);
    var s := RunAll(start, reqs);
    var staged := Stage(s.live, s.v13, form);
    if staged.Staged? {
      StagedPlaced(s.live, s.v13, form);
      var section := SectionOf(staged.targets[0]);
      var open, added := PendingOf(s.rows), NewRows(s.nextRow, section, staged.cmds);
      SubmitTabled(s, staged.targets, section, staged.cmds);
      NewRowsOwned(s.live, s.v13, form, s.nextRow);
      OtherRowsStay(s.v13, staged.targets, t, open);
      NoRowsOf(s.v13, t, added, staged.targets);
      KeepAppend((r: Row) => Clears(t, r.section, r.cmd.path), Unaffected(staged.targets, open), added);
      assert RowsOf(t, open) + [] == RowsOf(t, open);
    }
  }

  /** No row is both a NIC's and a VLAN's to replace. */
  lemma NicSparesVlans(name: string, parent: string, vid: i32, section: string, path: Path)
    ensures !(Clears(Nic(name), section, path) && Clears(Vif(parent, vid), section, path))
  {
    if Clears(Vif(parent, vid), section, path) {
      assert |Slice(path, 5)| == 5 && Slice(path, 5)[3] == "vif";
      assert path[3] == "vif";
    }
  }

  /** In any table at all, staging a NIC keeps the pending rows of every VLAN. */
  lemma NicKeepsVlanRows(s: State, nic: Links.EthernetUpdate, parent: string, vid: i32)
    ensures RowsOf(Vif(parent, vid), PendingOf(Next(s, Submit(StageNic(nic))).rows)) ==
            RowsOf(Vif(parent, vid), PendingOf(s.rows))
  {
    hide Links.DiffEthernet, Links.EthernetTree, Clears, Placed;
    var t := Vif(parent, vid);
    var staged := Stage(s.live, s.v13, StageNic(nic));
    if staged.Staged? {
      var kept, added := Unaffected([Nic(nic.name)], s.rows), NewRows(s.nextRow, "interfaces", staged.cmds);
      NewRowsOwned(s.live, s.v13, StageNic(nic), s.nextRow);
      NoRowsOf(s.v13, t, added, [Nic(nic.name)]);
      KeepAppend((r: Row) => r.status.Pending?, kept, added);
      KeepAll((r: Row) => r.status.Pending?, added);
      KeepAppend((r: Row) => Clears(t, r.section, r.cmd.path), PendingOf(kept), added);
      VlanRowsKept(nic.name, parent, vid, s.rows);
      assert RowsOf(t, PendingOf(kept)) + [] == RowsOf(t, PendingOf(kept));
    }
  }

  lemma {:induction false} VlanRowsKept(name: string, parent: string, vid: i32, rows: seq<Row>)
    ensures RowsOf(Vif(parent, vid), PendingOf(Unaffected([Nic(name)], rows))) == RowsOf(Vif(parent, vid), PendingOf(rows))
    decreases rows
  {
    hide Clears;
    var kept := (r: Row) => r.status.Committed? || !ClearedByAny([Nic(name)], r);
    var open := (r: Row) => r.status.Pending?;
    var own := (r: Row) => Clears(Vif(parent, vid), r.section, r.cmd.path);
    if rows != [] {
      var r := rows[0];
      VlanRowsKept(name, parent, vid, rows[1..]);
      NicSparesVlans(name, parent, vid, r.section, r.cmd.path);
      KeepAppend(open, if kept(r) then [r] else [], Keep(kept, rows[1..]));
      KeepAppend(own, if kept(r) then Keep(open, [r]) else [], PendingOf(Keep(kept, rows[1..])));
      KeepAppend(own, if open(r) then [r] else [], PendingOf(rows[1..]));
      assert Keep(open, [r]) == (if open(r) then [r] else []) + Keep(open, []);
      assert Keep(own, [r]) == (if own(r) then [r] else []) + Keep(own, []);
    }
  }

  /**
   The command lists of two forms without a common target give the same outcome in either order, at any tree they
   are reachable in: a NIC and its VLANs, two NICs, a source and a destination rule, a page and a rule.
   */
  lemma FormsCommute(cfg: Slot, v13: bool, a: Form, b: Form)
    requires Stage(cfg, v13, a).Staged? && Stage(cfg, v13, b).Staged?
    requires forall t | t in Stage(cfg, v13, a).targets :: Reachable(cfg, v13, t) && t !in Stage(cfg, v13, b).targets
    requires forall t | t in Stage(cfg, v13, b).targets :: Reachable(cfg, v13, t)
    ensures Run(DEVICE, cfg, Stage(cfg, v13, a).cmds + Stage(cfg, v13, b).cmds) ==
            Run(DEVICE, cfg, Stage(cfg, v13, b).cmds + Stage(cfg, v13, a).cmds)
  {
    hide Stage, Placed, Reachable, Run;
    if !b.StageNic? {
      NonNicCommutes(cfg, v13, a, b);
    } else if !a.StageNic? {
      NonNicCommutes(cfg, v13, b, a);
    } else {
      BelowOwnNic(cfg, v13, a.nic);
      BelowOwnNic(cfg, v13, b.nic);
      assert Nic(a.nic.name) in Stage(cfg, v13, a).targets && Nic(b.nic.name) in Stage(cfg, v13, b).targets;
      NicsCommute(cfg, v13, a.nic, b.nic);
    }
  }

  lemma NonNicCommutes(cfg: Slot, v13: bool, a: Form, b: Form)
    requires Stage(cfg, v13, a).Staged? && Stage(cfg, v13, b).Staged? && !b.StageNic?
    requires forall t | t in Stage(cfg, v13, a).targets :: Reachable(cfg, v13, t) && t !in Stage(cfg, v13, b).targets
    requires forall t | t in Stage(cfg, v13, b).targets :: Reachable(cfg, v13, t)
    ensures Run(DEVICE, cfg, Stage(cfg, v13, a).cmds + Stage(cfg, v13, b).cmds) ==
            Run(DEVICE, cfg, Stage(cfg, v13, b).cmds + Stage(cfg, v13, a).cmds)
  {
    hide Stage, Placed, Reachable, ValidTarget, Grounded, Housed, Feet, Run, Passes, Opening;
    var x, y := Stage(cfg, v13, a), Stage(cfg, v13, b);
    var ts := x.targets + y.targets;
    StagedPlaced(cfg, v13, a);
    StagedPlaced(cfg, v13, b);
    PlacedMore(v13, x.targets, ts, x.cmds);
    PlacedMore(v13, y.targets, ts, y.cmds);
    PlacedAppend(v13, ts, x.cmds, y.cmds);
    TargetsValid(cfg, v13, a);
    TargetsValid(cfg, v13, b);
    PlacesGrounded(cfg, v13, ts);
    CmdsHoused(cfg, v13, ts, x.cmds + y.cmds);
    forall d | d in y.cmds
      ensures exists g :: Passes(DEVICE, AllFeet(v13, ts), x.cmds, d, g)
    {
      var u :| u in y.targets && Placed(v13, u, d);
      NoNicTargets(cfg, v13, b, u);
      PassesAll(v13, x.targets, y.targets, x.cmds, d, u);
    }
    RunsCommute(DEVICE, cfg, AllFeet(v13, ts), x.cmds + y.cmds, x.cmds, y.cmds);
  }

  /** Two NICs work below nodes of their own. */
  lemma NicsCommute(cfg: Slot, v13: bool, a: Links.EthernetUpdate, b: Links.EthernetUpdate)
    requires Stage(cfg, v13, StageNic(a)).Staged? && Stage(cfg, v13, StageNic(b)).Staged? && a.name != b.name
    requires Reachable(cfg, v13, Nic(a.name)) && Reachable(cfg, v13, Nic(b.name))
    ensures
      var x, y := Stage(cfg, v13, StageNic(a)).cmds, Stage(cfg, v13, StageNic(b)).cmds;
      Run(DEVICE, cfg, x + y) == Run(DEVICE, cfg, y + x)
  {
    hide Stage, Links.EthBase, Run, Get, SchemaAt;
    var x, y := Stage(cfg, v13, StageNic(a)).cmds, Stage(cfg, v13, StageNic(b)).cmds;
    var f, g := Links.EthBase(a.name), Links.EthBase(b.name);
    var feet := {f, g};
    BelowOwnNic(cfg, v13, a);
    BelowOwnNic(cfg, v13, b);
    NicsApart(a.name, b.name);
    assert Grounded(DEVICE, cfg, feet) && Housed(DEVICE, cfg, feet, x + y);
    forall d | d in y
      ensures exists h :: Passes(DEVICE, feet, x, d, h)
    {
      assert Passes(DEVICE, feet, x, d, g);
    }
    RunsCommute(DEVICE, cfg, feet, x + y, x, y);
  }

  lemma BelowOwnNic(cfg: Slot, v13: bool, b: Links.EthernetUpdate)
    requires Stage(cfg, v13, StageNic(b)).Staged?
    ensures forall c | c in Stage(cfg, v13, StageNic(b)).cmds :: Links.EthBase(b.name) <= c.path
    ensures SchemaAt(DEVICE, Links.EthBase(b.name)).Some?
    ensures Stage(cfg, v13, StageNic(b)).targets == [Nic(b.name)]
  {
    hide Links.LinkCmds, Links.EthernetTree;
    Links.LinkSchemas(b.name, 0);
  }

  lemma NicsApart(m: string, n: string)
    requires m != n
    ensures Apart(Links.EthBase(m), Links.EthBase(n)) && Apart(Links.EthBase(n), Links.EthBase(m))
    ensures Links.EthBase(m) != Links.EthBase(n)
  {
    var p, q := Links.EthBase(m), Links.EthBase(n);
    assert p[..2] == ["interfaces", "ethernet"] && q[..2] == ["interfaces", "ethernet"];
    ApartAt(p, q, 2);
    ApartAt(q, p, 2);
  }

  lemma NoNicTargets(cfg: Slot, v13: bool, form: Form, t: Target)
    requires Stage(cfg, v13, form).Staged? && t in Stage(cfg, v13, form).targets && !form.StageNic?
    ensures !t.Nic?
  {
    hide Nat.DiffNat44, Links.DiffVlan, Links.DiffEthernet, Sys.DiffSystem, Fw.Gather, Fw.DiffGlobalOptions, Get;
  }

  lemma PassesAll(v13: bool, ts: seq<Target>, us: seq<Target>, cs: seq<Cmd>, d: Cmd, u: Target)
    requires AllPlaced(v13, ts, cs) && u in us && Placed(v13, u, d) && !u.Nic? && u !in ts
    ensures exists g :: Passes(DEVICE, AllFeet(v13, ts + us), cs, d, g)
  {
    hide Feet, Above;
    var g :| g in Feet(v13, u) && g <= d.path;
    var feet := AllFeet(v13, ts + us);
    forall c | c in cs
      ensures (exists f :: f in feet && f != g && f <= c.path) || Opening(DEVICE, feet, c)
    {
      var t :| t in ts && Placed(v13, t, c);
      if f :| f in Feet(v13, t) && f <= c.path {
        if f == g {
          FeetApart(v13, t, f, u, g);
          ApartNotPrefix(f, g);
        }
        assert f in feet;
      } else {
        NicAbove(v13, ts + us, t.name);
      }
    }
    assert g in feet;
    assert Passes(DEVICE, feet, cs, d, g);
  }
}
