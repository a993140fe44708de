/**
 The review tray of one router: typed forms are staged as pending `set` / `delete` rows, restaging replaces the
 rows of the same targets, and a commit fires all pending rows as one batch.
 */
module ChangeReview {
  import opened Options
  import opened Text
  import opened ConfigTree
  import opened DeviceSchema
  import Nat = NatRules
  import Pairs = StaticNatRoundTrip
  import Links = Interfaces
  import Fw = FirewallOptions
  import Sys = SystemConfig

  // ── what a form is about ───────────────────────────────────────────────────

  datatype Target =
    | Rule(section: string, num: u32)
    | Vif(parent: string, vid: i32)
    | Nic(name: string)
    | SystemPage
    | FirewallPage

  function SectionOf(t: Target): string {
    match t
    case Rule(_, _) => "nat"
    case Vif(_, _) => "interfaces"
    case Nic(_) => "interfaces"
    case SystemPage => "system"
    case FirewallPage => "firewall"
  }

  function Slice(p: Path, n: nat): Path {
    if |p| <= n then p else p[..n]
  }

  /** The `WHERE` clause by which restaging a target finds the pending rows to replace. */
  predicate Clears(t: Target, section: string, path: Path) {
    match t
    case Rule(s, n) => Slice(path, 4) == Nat.RuleBase(s, n)
    case Vif(p, v) => Slice(path, 5) == Links.VifBase(p, v)
    case Nic(n) => Slice(path, 3) == Links.EthBase(n) && (|path| < 4 || path[3] != "vif")
    case SystemPage => section == "system"
    case FirewallPage => section == "firewall"
  }

  datatype Form =
    | StageRule(rule: Nat.RuleUpdate)
    | DeleteRule(section: string, num: u32)
    | StageMapping(mapping: Pairs.StaticUpdate)
    | DeleteMapping(num: u32)
    | StageNic(nic: Links.EthernetUpdate)
    | StageVlan(vlan: Links.VlanUpdate)
    | DeleteVlan(parent: string, vid: i32)
    | StageSystem(system: Sys.SystemUpdate)
    | StageFirewall(firewall: Fw.GlobalOptions)

  /** What a handler stages: the targets whose pending rows it replaces, and the new commands. */
  datatype Staging = Refused | Staged(targets: seq<Target>, cmds: seq<Cmd>)

  function RuleTargets(section: string, rule: u32, original: Option<u32>): seq<Target> {
    [Rule(section, rule)] +
    if original.Some? && original.value != rule then [Rule(section, original.value)] else []
  }

  function Stage(live: Slot, v13: bool, form: Form): (r: Staging)
    ensures r.Staged? ==> r.targets != []
  {
    var natTree, eth := Get(live, ["nat"]), Links.EthernetTree(live);
    match form
    case StageRule(b) =>
      if !Nat.ValidSection(b.section) || !(1 <= b.rule <= 999999) then Refused
      else Staged(RuleTargets(b.section, b.rule, b.originalRule), Nat.DiffNat44(natTree, b))
    case DeleteRule(section, num) =>
      if !Nat.ValidSection(section) then Refused
      else Staged([Rule(section, num)], [Cmd(Delete, Nat.RuleBase(section, num))])
    case StageMapping(b) =>
      if !(1 <= b.rule <= 999999) then Refused
      else Staged(RuleTargets("source", b.rule, b.originalRule) + RuleTargets("destination", b.rule, b.originalRule),
                  Pairs.DiffStatic(natTree, b))
    case DeleteMapping(num) =>
      Staged([Rule("source", num), Rule("destination", num)],
             [Cmd(Delete, Nat.RuleBase("source", num)), Cmd(Delete, Nat.RuleBase("destination", num))])
    case StageNic(b) =>
      if Trim(b.name) == "" then Refused else Staged([Nic(b.name)], Links.DiffEthernet(eth, b))
    case StageVlan(b) =>
      if !(1 <= b.vlanId <= 4094) then Refused
      else Staged([Vif(b.parent, b.vlanId)] +
                  if Links.Moved(b) then [Vif(b.originalParent.value, b.originalVlanId.value)] else [],
                  Links.DiffVlan(eth, b))
    case DeleteVlan(p, v) => Staged([Vif(p, v)], [Cmd(Delete, Links.VifBase(p, v))])
    case StageSystem(b) =>
      if Get(live, ["system"]).None? then Refused
      else Staged([SystemPage], Sys.DiffSystem(Sys.ReadSystem(live, v13), b))
    case StageFirewall(b) =>
      if Get(live, Fw.BASE).None? then Refused
      else Staged([FirewallPage], Fw.DiffGlobalOptions(Fw.Gather(Get(live, Fw.BASE)), b))
  }

  // ── the table and the device ───────────────────────────────────────────────

  datatype Status = Pending | Committed
  datatype Row = Row(id: nat, cmd: Cmd, section: string, status: Status, commitId: Option<nat>)
  datatype CommitRow = CommitRow(id: nat, success: bool, changeCount: nat, saved: bool)

  datatype State = State(rows: seq<Row>, commits: seq<CommitRow>, nextRow: nat, live: Slot, v13: bool)

  /** How the device answers a batch that its schema accepts. */
  datatype Reply = Unreachable | Refuses | Accepts(saved: bool)

  datatype Request =
    | Submit(form: Form)
    | DiscardOne(id: nat)
    | DiscardAll
    | Commit(reply: Reply)

  function Keep(p: Row -> bool, rows: seq<Row>): seq<Row> {
    if rows == [] then [] else (if p(rows[0]) then [rows[0]] else []) + Keep(p, rows[1..])
  }

  function PendingOf(rows: seq<Row>): seq<Row> {
    Keep((r: Row) => r.status.Pending?, rows)
  }

  function CommittedOf(rows: seq<Row>): seq<Row> {
    Keep((r: Row) => r.status.Committed?, rows)
  }

  function CmdsOf(rows: seq<Row>): (cs: seq<Cmd>)
    ensures |cs| == |rows| && forall i | 0 <= i < |rows| :: cs[i] == rows[i].cmd
  {
    if rows == [] then [] else [rows[0].cmd] + CmdsOf(rows[1..])
  }

  predicate ClearedByAny(ts: seq<Target>, r: Row) {
    exists t | t in ts :: Clears(t, r.section, r.cmd.path)
  }

  /** The rows that restaging the targets leaves: all committed ones, and pending ones of other targets. */
  function Unaffected(ts: seq<Target>, rows: seq<Row>): seq<Row> {
    Keep((r: Row) => r.status.Committed? || !ClearedByAny(ts, r), rows)
  }

  function NewRows(first: nat, section: string, cs: seq<Cmd>): seq<Row> {
    seq(|cs|, i requires 0 <= i < |cs| => Row(first + i, cs[i], section, Pending, None))
  }

  function Mark(rows: seq<Row>, commitId: nat): seq<Row> {
    if rows == [] then []
    else
      [if rows[0].status.Pending? then rows[0].(status := Committed, commitId := Some(commitId)) else rows[0]] +
      Mark(rows[1..], commitId)
  }

  function Next(s: State, req: Request): State {
    match req
    case Submit(form) =>
      var staged := Stage(s.live, s.v13, form);
      if staged.Refused? then s
      else
        var section := SectionOf(staged.targets[0]);
        s.(rows := Unaffected(staged.targets, s.rows) + NewRows(s.nextRow, section, staged.cmds),
           nextRow := s.nextRow + |staged.cmds|)
    case DiscardOne(id) => s.(rows := Keep((r: Row) => r.id != id || r.status.Committed?, s.rows))
    case DiscardAll => s.(rows := CommittedOf(s.rows))
    case Commit(reply) =>
      var pending := PendingOf(s.rows);
      if pending == [] || reply.Unreachable? then s
      else
        var outcome := Run(DEVICE, s.live, CmdsOf(pending));
        var applied := reply.Accepts? && outcome.Applied?;
        var commit := CommitRow(|s.commits|, applied, |pending|, applied && reply.saved);
        if applied then
          s.(rows := Mark(s.rows, commit.id), commits := s.commits + [commit], live := outcome.slot)
        else s.(commits := s.commits + [commit])
  }

  function RunAll(s: State, reqs: seq<Request>): State
    decreases reqs
  {
    if reqs == [] then s else RunAll(Next(s, reqs[0]), reqs[1..])
  }
}
