/** Where the staged commands of each target lie, and that restaging a target clears exactly its own rows. */
module ReviewTargets {
  import opened Text
  import opened ConfigTree
  import opened Edits
  import opened Batches
  import opened ChangeReview
  import Nat = NatRules
  import Pairs = StaticNatRoundTrip
  import Links = Interfaces
  import Fw = FirewallOptions
  import Sys = SystemConfig

  function NicFoot(name: string, p: Links.Place): Path {
    Links.EthBase(name) + [Links.Key(p)]
  }

  /** The places a target's commands work at. A NIC's VLANs are not among its places. */
  function Feet(v13: bool, t: Target): set<Path> {
    match t
    case Rule(s, n) => {Nat.RuleBase(s, n)}
    case Vif(p, v) => {Links.VifBase(p, v)}
    case Nic(n) => set p | p in Links.NIC_PLACES :: NicFoot(n, p)
    case SystemPage => set i | 0 <= i < 4 :: Sys.SystemPaths(v13)[i]
    case FirewallPage => {Fw.BASE}
  }

  /** A command of the target: at one of its places, or the bare `set` of its NIC. */
  ghost predicate Placed(v13: bool, t: Target, c: Cmd) {
    || (exists f :: f in Feet(v13, t) && f <= c.path)
    || (t.Nic? && c == Cmd(Set, Links.EthBase(t.name)))
  }

  // ── separate targets, separate places ──────────────────────────────────────

  lemma FootHead(v13: bool, t: Target, f: Path)
    requires f in Feet(v13, t)
    ensures |f| >= 2
    ensures t.Rule? ==> f == ["nat", t.section, "rule", PrintInt(t.num)]
    ensures t.Vif? ==> f == ["interfaces", "ethernet", t.parent, "vif", PrintInt(t.vid)]
    ensures t.Nic? ==> exists p :: p in Links.NIC_PLACES && f == ["interfaces", "ethernet", t.name, Links.Key(p)]
    ensures t.SystemPage? ==> f[0] == "system" || f[0] == "service"
    ensures t.FirewallPage? ==> f == ["firewall", "global-options"]
  {
    if t.Nic? {
      var p :| p in Links.NIC_PLACES && f == NicFoot(t.name, p);
      assert f == ["interfaces", "ethernet", t.name, Links.Key(p)];
    } else if t.SystemPage? {
      var i :| 0 <= i < 4 && f == Sys.SystemPaths(v13)[i];
    }
  }

  lemma ApartAt(p: Path, q: Path, k: nat)
    requires k < |p| && k < |q| && p[k] != q[k] && p[..k] == q[..k]
    ensures Apart(p, q)
    decreases k
  {
    if k > 0 {
      assert p[0] == p[..k][0] && q[0] == q[..k][0];
      assert p[1..][..k - 1] == p[..k][1..] && q[1..][..k - 1] == q[..k][1..];
      ApartAt(p[1..], q[1..], k - 1);
    }
  }

  lemma KeyIsNotVif(p: Links.Place)
    ensures Links.Key(p) != "vif"
  {
  }

  /** The places of all targets are apart from each other. */
  lemma FeetApart(v13: bool, t: Target, f: Path, t': Target, f': Path)
    requires f in Feet(v13, t) && f' in Feet(v13, t') && (t != t' || f != f')
    ensures Apart(f, f')
  {
    FootHead(v13, t, f);
    FootHead(v13, t', f');
    if f[0] != f'[0] {
      ApartAt(f, f', 0);
    } else if t.Rule? && t'.Rule? {
      Nat.RulesApart(t.section, t.num, t'.section, t'.num);
    } else if t.Vif? && t'.Vif? {
      Links.VifsApart(t.parent, t.vid, t'.parent, t'.vid);
    } else if t.SystemPage? {
      var i :| 0 <= i < 4 && f == Sys.SystemPaths(v13)[i];
      var j :| 0 <= j < 4 && f' == Sys.SystemPaths(v13)[j];
      Sys.SystemPathsApart(v13);
      if j < i {
        ApartSymmetric(f', f);
      }
    } else {
      LinkFeetApart(v13, t, f, t', f');
    }
  }

  lemma LinkFeetApart(v13: bool, t: Target, f: Path, t': Target, f': Path)
    requires f in Feet(v13, t) && f' in Feet(v13, t') && (t != t' || f != f')
    requires (t.Nic? && (t'.Nic? || t'.Vif?)) || (t.Vif? && t'.Nic?)
    ensures Apart(f, f')
  {
    FootHead(v13, t, f);
    FootHead(v13, t', f');
    assert f[..2] == ["interfaces", "ethernet"] && f'[..2] == ["interfaces", "ethernet"];
    assert f[..3] == ["interfaces", "ethernet", f[2]] && f'[..3] == ["interfaces", "ethernet", f'[2]];
    if f[2] != f'[2] {
      ApartAt(f, f', 2);
    } else {
      forall p { KeyIsNotVif(p); }
      assert t.Nic? && t'.Nic? && f[3] == f'[3] ==> f == f';
      ApartAt(f, f', 3);
    }
  }

  // ── the WHERE clauses ──────────────────────────────────────────────────────

  lemma PlacedHead(v13: bool, t: Target, c: Cmd)
    requires Placed(v13, t, c)
    ensures |c.path| >= 2
    ensures t.Rule? ==> Slice(c.path, 4) == Nat.RuleBase(t.section, t.num)
    ensures t.Vif? ==> Slice(c.path, 5) == Links.VifBase(t.parent, t.vid)
    ensures t.Nic? ==> Slice(c.path, 3) == Links.EthBase(t.name) && (|c.path| < 4 || c.path[3] != "vif")
    ensures t.SystemPage? ==> c.path[0] == "system" || c.path[0] == "service"
    ensures t.FirewallPage? ==> c.path[0] == "firewall"
  {
    if f :| f in Feet(v13, t) && f <= c.path {
      FootHead(v13, t, f);
      forall p { KeyIsNotVif(p); }
      if t.Nic? {
        assert c.path[..3] == f[..3] == Links.EthBase(t.name) && c.path[3] == f[3];
      }
    }
  }

  /** A staged row is cleared by restaging its own target and by no other. */
  lemma ClearsOwn(v13: bool, t: Target, c: Cmd, t': Target)
    requires Placed(v13, t, c)
    ensures Clears(t', SectionOf(t), c.path) <==> t' == t
  {
    PlacedHead(v13, t, c);
    if Clears(t', SectionOf(t), c.path) && t' != t {
      match t'
      case Rule(s, n) =>
        assert c.path[0] == "nat";
        Nat.RulesApart(t.section, t.num, s, n);
        ApartNotPrefix(Nat.RuleBase(t.section, t.num), Nat.RuleBase(s, n));
      case Vif(p, v) =>
        assert c.path[0] == "interfaces" && |c.path| >= 5 && c.path[3] == "vif";
        Links.VifsApart(t.parent, t.vid, p, v);
        ApartNotPrefix(Links.VifBase(t.parent, t.vid), Links.VifBase(p, v));
      case Nic(n) =>
      case SystemPage =>
      case FirewallPage =>
    }
  }

  // ── what each form stages ──────────────────────────────────────────────────

  ghost predicate AllPlaced(v13: bool, ts: seq<Target>, cs: seq<Cmd>) {
    forall c | c in cs :: exists t :: t in ts && Placed(v13, t, c)
  }

  lemma BelowPlaced(v13: bool, ts: seq<Target>, t: Target, base: Path, cs: seq<Cmd>)
    requires t in ts && base in Feet(v13, t)
    ensures AllPlaced(v13, ts, Below(base, cs))
  {
    forall c | c in Below(base, cs)
      ensures Placed(v13, t, c)
    {
      var i :| 0 <= i < |cs| && c == Below(base, cs)[i];
      assert base <= c.path;
    }
  }

  lemma DeletePlaced(v13: bool, ts: seq<Target>, t: Target, base: Path)
    requires t in ts && base in Feet(v13, t)
    ensures AllPlaced(v13, ts, [Cmd(Delete, base)])
  {
    forall c | c in [Cmd(Delete, base)]
      ensures Placed(v13, t, c)
    {
      assert base <= c.path;
    }
  }

  lemma PlacedAppend(v13: bool, ts: seq<Target>, a: seq<Cmd>, b: seq<Cmd>)
    requires AllPlaced(v13, ts, a) && AllPlaced(v13, ts, b)
    ensures AllPlaced(v13, ts, a + b)
  {
  }

  lemma PlacedMore(v13: bool, ts: seq<Target>, more: seq<Target>, cs: seq<Cmd>)
    requires AllPlaced(v13, ts, cs) && forall t | t in ts :: t in more
    ensures AllPlaced(v13, more, cs)
  {
    forall c | c in cs
      ensures exists t :: t in more && Placed(v13, t, c)
    {
      var t :| t in ts && Placed(v13, t, c);
    }
  }

  lemma {:induction false} FlatPlaced(edits: seq<Edit>)
    ensures forall c | c in Flat(edits) :: exists i :: 0 <= i < |edits| && edits[i].at <= c.path
    decreases edits
  {
    if edits != [] {
      FlatPlaced(edits[1..]);
      forall c | c in Flat(edits)
        ensures exists i :: 0 <= i < |edits| && edits[i].at <= c.path
      {
        if c in Flat(edits[1..]) {
          var i :| 0 <= i < |edits[1..]| && edits[1..][i].at <= c.path;
          assert edits[i + 1].at <= c.path;
        } else {
          var k :| 0 <= k < |edits[0].cmds| && c == Below(edits[0].at, edits[0].cmds)[k];
          assert edits[0].at <= c.path;
        }
      }
    }
  }

  lemma RulePlaced(v13: bool, natTree: Slot, b: Nat.RuleUpdate)
    ensures AllPlaced(v13, RuleTargets(b.section, b.rule, b.originalRule), Nat.DiffNat44(natTree, b))
  {
    var ts := RuleTargets(b.section, b.rule, b.originalRule);
    var base := Nat.RuleBase(b.section, b.rule);
    forall cs: seq<Cmd> {
      BelowPlaced(v13, ts, Rule(b.section, b.rule), base, cs);
    }
    if Nat.Moved(b) {
      DeletePlaced(v13, ts, Rule(b.section, b.originalRule.value), Nat.FormerBase(b));
      forall cs: seq<Cmd> {
        PlacedAppend(v13, ts, [Cmd(Delete, Nat.FormerBase(b))], Below(base, cs));
      }
    }
  }

  lemma VlanPlaced(v13: bool, eth: Slot, b: Links.VlanUpdate)
    ensures
      var ts := [Vif(b.parent, b.vlanId)] +
                if Links.Moved(b) then [Vif(b.originalParent.value, b.originalVlanId.value)] else [];
      AllPlaced(v13, ts, Links.DiffVlan(eth, b))
  {
    var ts := [Vif(b.parent, b.vlanId)] +
              if Links.Moved(b) then [Vif(b.originalParent.value, b.originalVlanId.value)] else [];
    var base := Links.VifBase(b.parent, b.vlanId);
    forall cs: seq<Cmd> {
      BelowPlaced(v13, ts, Vif(b.parent, b.vlanId), base, cs);
    }
    if Links.Moved(b) {
      DeletePlaced(v13, ts, Vif(b.originalParent.value, b.originalVlanId.value), Links.FormerBase(b));
      forall cs: seq<Cmd> {
        PlacedAppend(v13, ts, [Cmd(Delete, Links.FormerBase(b))], Below(base, cs));
      }
    }
  }

  lemma NicEditPlaced(v13: bool, name: string, edits: seq<Edit>, i: nat, c: Cmd)
    requires |edits| == |Links.NIC_PLACES| && i < |edits| && edits[i].at == [Links.Key(Links.NIC_PLACES[i])]
    requires edits[i].at <= c.path
    ensures Placed(v13, Nic(name), Cmd(c.op, Links.EthBase(name) + c.path))
  {
    hide Links.EthBase;
    var p, base := Links.NIC_PLACES[i], Links.EthBase(name);
    assert p in Links.NIC_PLACES && NicFoot(name, p) in Feet(v13, Nic(name));
    assert base + edits[i].at <= base + c.path;
  }

  lemma NicPlaced(v13: bool, eth: Slot, b: Links.EthernetUpdate)
    ensures AllPlaced(v13, [Nic(b.name)], Links.DiffEthernet(eth, b))
  {
    hide Get, Links.ReadLink, Links.WantedNic, Links.PlaceCmds, Feet, Links.EthBase;
    var base, live, w := Links.EthBase(b.name), Get(eth, [b.name]), Links.WantedNic(b);
    var edits := Links.LinkEdits(Links.NIC_PLACES, Links.ReadLink(live), w);
    var inner := RecordCmds(live.None?, edits);
    FlatPlaced(edits);
    forall c | c in Below(base, inner)
      ensures Placed(v13, Nic(b.name), c)
    {
      var k :| 0 <= k < |inner| && c == Below(base, inner)[k];
      if inner[k] in Flat(edits) {
        var i :| 0 <= i < |edits| && edits[i].at <= inner[k].path;
        NicEditPlaced(v13, b.name, edits, i, inner[k]);
      } else {
        assert inner[k] == Cmd(Set, []) && base + [] == base;
      }
    }
    assert Nic(b.name) in [Nic(b.name)];
  }

  lemma SystemPlaced(v13: bool, live: Sys.LiveSystem, b: Sys.SystemUpdate)
    requires live.ntpBase == Sys.NtpBase(v13)
    ensures AllPlaced(v13, [SystemPage], Sys.DiffSystem(live, b))
  {
    var edits := Sys.SystemEdits(live, b);
    FlatPlaced(edits);
    forall c | c in Flat(edits)
      ensures Placed(v13, SystemPage, c)
    {
      var i :| 0 <= i < |edits| && edits[i].at <= c.path;
      assert edits[i].at == Sys.SystemPaths(v13)[i] && Sys.SystemPaths(v13)[i] in Feet(v13, SystemPage);
    }
    assert SystemPage in [SystemPage];
  }

  /** Every staged command lies at a place of one of the targets whose rows it replaces, all in one section. */
  lemma StagedPlaced(cfg: Slot, v13: bool, form: Form)
    requires Stage(cfg, v13, form).Staged?
    ensures
      var staged := Stage(cfg, v13, form);
      && staged.targets != []
      && AllPlaced(v13, staged.targets, staged.cmds)
      && (forall t | t in staged.targets :: SectionOf(t) == SectionOf(staged.targets[0]))
  {
    hide AllPlaced, Placed, Nat.DiffNat44, Links.DiffVlan, Links.DiffEthernet, Sys.DiffSystem, Fw.Gather, Fw.OptionEdits;
    var natTree, eth := Get(cfg, ["nat"]), Links.EthernetTree(cfg);
    match form
    case StageRule(b) => RulePlaced(v13, natTree, b);
    case DeleteRule(s, n) => DeletePlaced(v13, [Rule(s, n)], Rule(s, n), Nat.RuleBase(s, n));
    case StageMapping(b) =>
      var (x, y) := Pairs.StaticPair(b);
      var ts := RuleTargets("source", b.rule, b.originalRule) + RuleTargets("destination", b.rule, b.originalRule);
      RulePlaced(v13, natTree, x);
      RulePlaced(v13, natTree, y);
      PlacedMore(v13, RuleTargets("source", b.rule, b.originalRule), ts, Nat.DiffNat44(natTree, x));
      PlacedMore(v13, RuleTargets("destination", b.rule, b.originalRule), ts, Nat.DiffNat44(natTree, y));
      PlacedAppend(v13, ts, Nat.DiffNat44(natTree, x), Nat.DiffNat44(natTree, y));
    case DeleteMapping(n) =>
      var ts := [Rule("source", n), Rule("destination", n)];
      DeletePlaced(v13, ts, Rule("source", n), Nat.RuleBase("source", n));
      DeletePlaced(v13, ts, Rule("destination", n), Nat.RuleBase("destination", n));
      var src, dst := Cmd(Delete, Nat.RuleBase("source", n)), Cmd(Delete, Nat.RuleBase("destination", n));
      PlacedAppend(v13, ts, [src], [dst]);
      assert [src] + [dst] == [src, dst];
    case StageNic(b) => NicPlaced(v13, eth, b);
    case StageVlan(b) => VlanPlaced(v13, eth, b);
    case DeleteVlan(p, v) => DeletePlaced(v13, [Vif(p, v)], Vif(p, v), Links.VifBase(p, v));
    case StageSystem(b) => SystemPlaced(v13, Sys.ReadSystem(cfg, v13), b);
    case StageFirewall(b) =>
      BelowPlaced(v13, [FirewallPage], FirewallPage, Fw.BASE,
                  Flat(Fw.OptionEdits(Fw.Gather(Get(cfg, Fw.BASE)), Fw.WantedOptions(b))));
  }
}
