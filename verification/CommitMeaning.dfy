/** What one commit makes of the configuration after a run of stagings. */
module CommitMeaning {
  import opened Options
  import opened ConfigTree
  import opened DeviceSchema
  import opened Batches
  import opened ChangeReview
  import opened ReviewLedger
  import opened ReviewRace
  import opened ReviewTargets
  import opened LastStaging
  import Nat = NatRules
  import Links = Interfaces
  import Fw = FirewallOptions
  import Sys = SystemConfig

  /** A form whose own commands the device would accept, at places the live tree can be walked to. */
  ghost predicate Ready(cfg: Slot, v13: bool, form: Form) {
    var staged := Stage(cfg, v13, form);
    staged.Staged? ==>
      && Run(DEVICE, cfg, staged.cmds).Applied?
      && (forall t | t in staged.targets :: Reachable(cfg, v13, t))
  }

  ghost predicate Reachable(cfg: Slot, v13: bool, t: Target) {
    && (forall f | f in Feet(v13, t) :: Walkable(cfg, f))
    && (t.Nic? ==> Walkable(cfg, Links.EthBase(t.name)))
  }

  /** The last form about each target is ready; forms that were restaged or discarded do not matter. */
  ghost predicate AllReady(cfg: Slot, v13: bool, reqs: seq<Request>) {
    forall t | LastAbout(cfg, v13, reqs, t).Some? :: Ready(cfg, v13, LastAbout(cfg, v13, reqs, t).value)
  }

  /** The targets of the forms accepted since the last discard-all. */
  function Mentioned(cfg: Slot, v13: bool, reqs: seq<Request>): seq<Target> {
    if reqs == [] then []
    else
      var before, last := reqs[..|reqs| - 1], reqs[|reqs| - 1];
      if last.DiscardAll? then []
      else
        Mentioned(cfg, v13, before) +
        if last.Submit? && Stage(cfg, v13, last.form).Staged? then Stage(cfg, v13, last.form).targets else []
  }

  function AllFeet(v13: bool, ts: seq<Target>): set<Path> {
    set t, f | t in ts && f in Feet(v13, t) :: f
  }

  /** A target is mentioned exactly when some form about it counts. */
  lemma {:induction false} MentionedIff(cfg: Slot, v13: bool, reqs: seq<Request>, t: Target)
    ensures t in Mentioned(cfg, v13, reqs) <==> LastAbout(cfg, v13, reqs, t).Some?
    decreases reqs
  {
    hide Stage;
    if reqs != [] {
      MentionedIff(cfg, v13, reqs[..|reqs| - 1], t);
    }
  }

  /** The last form about a target was accepted, is about it, and all its targets are mentioned. */
  lemma {:induction false} LastForm(cfg: Slot, v13: bool, reqs: seq<Request>, t: Target)
    requires LastAbout(cfg, v13, reqs, t).Some?
    ensures
      var form := LastAbout(cfg, v13, reqs, t).value;
      && Stage(cfg, v13, form).Staged? && t in Stage(cfg, v13, form).targets
      && (forall u | u in Stage(cfg, v13, form).targets :: u in Mentioned(cfg, v13, reqs))
    decreases reqs
  {
    hide Stage;
    var before, last := reqs[..|reqs| - 1], reqs[|reqs| - 1];
    var form := LastAbout(cfg, v13, reqs, t).value;
    if last == Submit(form) && Stage(cfg, v13, form).Staged? && t in Stage(cfg, v13, form).targets {
    } else {
      LastForm(cfg, v13, before, t);
    }
  }

  /** The mentioned targets are proper ones, reachable in the live tree. */
  lemma MentionedReachable(cfg: Slot, v13: bool, reqs: seq<Request>)
    requires AllReady(cfg, v13, reqs)
    ensures forall t | t in Mentioned(cfg, v13, reqs) :: Reachable(cfg, v13, t) && ValidTarget(t)
  {
    hide Stage, Reachable, ValidTarget, LastAbout, Run, Mentioned;
    forall t | t in Mentioned(cfg, v13, reqs)
      ensures Reachable(cfg, v13, t) && ValidTarget(t)
    {
      MentionedIff(cfg, v13, reqs, t);
      LastForm(cfg, v13, reqs, t);
      TargetsValid(cfg, v13, LastAbout(cfg, v13, reqs, t).value);
    }
  }

  // ── the places of a run ────────────────────────────────────────────────────

  predicate ValidTarget(t: Target) {
    t.Rule? ==> Nat.ValidSection(t.section)
  }

  lemma TargetsValid(cfg: Slot, v13: bool, form: Form)
    requires Stage(cfg, v13, form).Staged?
    ensures forall t | t in Stage(cfg, v13, form).targets :: ValidTarget(t)
  {
    hide Nat.DiffNat44, Links.DiffVlan, Links.DiffEthernet, Sys.DiffSystem, Fw.Gather, Fw.DiffGlobalOptions, Get;
  }

  lemma FootSchema(v13: bool, t: Target, f: Path)
    requires f in Feet(v13, t) && ValidTarget(t)
    ensures SchemaAt(DEVICE, f).Some?
  {
    match t
    case Rule(s, n) => Nat.RuleSchema(s, n);
    case Vif(p, v) => Links.LinkSchemas(p, v);
    case Nic(n) =>
      var p :| p in Links.NIC_PLACES && f == NicFoot(n, p);
      Links.LinkSchemas(n, 0);
      SchemaSplit(DEVICE, Links.EthBase(n), [Links.Key(p)]);
      Links.NicNode(None);
      assert [Links.Key(p)][1..] == [];
    case SystemPage =>
      var i :| 0 <= i < 4 && f == Sys.SystemPaths(v13)[i];
      GetNone(Sys.NtpBase(v13));
      GetNone(["server"]);
      Sys.SystemPlaces(None, v13, i);
    case FirewallPage => Fw.SectionSchema();
  }

  /** A NIC's node is above or beside every place. */
  lemma NicAbove(v13: bool, ts: seq<Target>, name: string)
    ensures Above(AllFeet(v13, ts), Links.EthBase(name))
    ensures Inner(DEVICE, Links.EthBase(name))
  {
    Links.LinkSchemas(name, 0);
    var base := Links.EthBase(name);
    forall f | f in AllFeet(v13, ts)
      ensures Apart(f, base) || base < f
    {
      var t :| t in ts && f in Feet(v13, t);
      FootHead(v13, t, f);
      if f[0] != "interfaces" {
        ApartAt(f, base, 0);
      } else if f[2] != name {
        assert f[..2] == base[..2];
        ApartAt(f, base, 2);
      } else {
        assert f[..3] == base;
      }
    }
  }

  /** The places of the mentioned targets are apart and reachable. */
  lemma PlacesGrounded(cfg: Slot, v13: bool, ts: seq<Target>)
    requires forall t | t in ts :: Reachable(cfg, v13, t) && ValidTarget(t)
    ensures Grounded(DEVICE, cfg, AllFeet(v13, ts))
  {
    var feet := AllFeet(v13, ts);
    forall f | f in feet
      ensures SchemaAt(DEVICE, f).Some? && Walkable(cfg, f)
    {
      var t :| t in ts && f in Feet(v13, t);
      FootSchema(v13, t, f);
    }
    forall f, g | f in feet && g in feet && f != g
      ensures Apart(f, g)
    {
      var t :| t in ts && f in Feet(v13, t);
      var u :| u in ts && g in Feet(v13, u);
      FeetApart(v13, t, f, u, g);
    }
  }

  lemma CmdsHoused(cfg: Slot, v13: bool, ts: seq<Target>, cs: seq<Cmd>)
    requires AllPlaced(v13, ts, cs)
    requires forall t | t in ts :: Reachable(cfg, v13, t)
    ensures Housed(DEVICE, cfg, AllFeet(v13, ts), cs)
  {
    var feet := AllFeet(v13, ts);
    forall c | c in cs
      ensures (exists f :: f in feet && f <= c.path) || (Opening(DEVICE, feet, c) && Walkable(cfg, c.path))
    {
      var t :| t in ts && Placed(v13, t, c);
      if f :| f in Feet(v13, t) && f <= c.path {
        assert f in feet;
      } else {
        NicAbove(v13, ts, t.name);
      }
    }
  }

  /** Only a target's own rows concern its places. */
  lemma {:induction false} OwnRowsConcern(v13: bool, t: Target, f: Path, rows: seq<Row>)
    requires f in Feet(v13, t) && AllOwned(v13, rows)
    ensures Concerning(f, CmdsOf(rows)) == Concerning(f, CmdsOf(RowsOf(t, rows)))
    decreases rows
  {
    if rows != [] {
      var r, rest := rows[0], rows[1..];
      assert AllOwned(v13, rest) by { assert forall x | x in rest :: x in rows; }
      OwnRowsConcern(v13, t, f, rest);
      assert r in rows;
      var owner :| PlacedRow(v13, owner, r);
      ClearsOwn(v13, owner, r.cmd, t);
      if f <= r.cmd.path {
        OwnerOfFoot(v13, t, f, owner, r.cmd);
      }
      if Clears(t, r.section, r.cmd.path) {
        assert RowsOf(t, rows) == [r] + RowsOf(t, rest);
        assert CmdsOf([r] + RowsOf(t, rest))[1..] == CmdsOf(RowsOf(t, rest));
      } else {
        assert RowsOf(t, rows) == RowsOf(t, rest);
      }
    }
  }

  lemma OwnerOfFoot(v13: bool, t: Target, f: Path, owner: Target, c: Cmd)
    requires f in Feet(v13, t) && Placed(v13, owner, c) && f <= c.path
    ensures owner == t
  {
    FootHead(v13, t, f);
    assert f[0] == c.path[0] && |f| <= |c.path|;
    if g :| g in Feet(v13, owner) && g <= c.path {
      if owner != t {
        FeetApart(v13, t, f, owner, g);
        ApartExtends(f, g, c.path, c.path);
        ApartNotPrefix(c.path, c.path);
      }
    }
  }

  /** What a form's own commands do at one of its places, when they are fired alone. */
  lemma FormAlone(cfg: Slot, v13: bool, form: Form, ts: seq<Target>, t: Target, f: Path)
    requires Ready(cfg, v13, form) && Stage(cfg, v13, form).Staged? && t in Stage(cfg, v13, form).targets
    requires f in Feet(v13, t)
    requires forall u | u in Stage(cfg, v13, form).targets :: u in ts
    requires forall u | u in ts :: Reachable(cfg, v13, u) && ValidTarget(u)
    ensures SchemaAt(DEVICE, f).Some?
    ensures
      var alone := Run(DEVICE, cfg, Stage(cfg, v13, form).cmds);
      var inner := Run(SchemaAt(DEVICE, f).value, Get(cfg, f), Concerning(f, OwnCmds(cfg, v13, Some(form), t)));
      alone.Applied? && inner.Applied? && Get(alone.slot, f) == inner.slot
  {
    hide Stage, Placed, Reachable, ValidTarget, Grounded, Housed, Beside, Above, Feet, Run, Get;
    var staged := Stage(cfg, v13, form);
    var rows := NewRows(0, SectionOf(staged.targets[0]), staged.cmds);
    StagedPlaced(cfg, v13, form);
    PlacedMore(v13, staged.targets, ts, staged.cmds);
    PlacesGrounded(cfg, v13, ts);
    CmdsHoused(cfg, v13, ts, staged.cmds);
    RunHoused(DEVICE, cfg, staged.cmds, AllFeet(v13, ts));
    assert f in AllFeet(v13, ts);
    FootSchema(v13, t, f);
    NewRowsOwned(cfg, v13, form, 0);
    OwnRowsConcern(v13, t, f, rows);
    assert CmdsOf(rows) == staged.cmds;
  }

  /** The pending rows, each at a place of a mentioned target. */
  lemma OpenPlaced(cfg: Slot, v13: bool, reqs: seq<Request>, open: seq<Row>)
    requires LastPending(cfg, v13, reqs, open)
    ensures AllPlaced(v13, Mentioned(cfg, v13, reqs), CmdsOf(open))
  {
    hide Stage, Placed, LastAbout, Mentioned;
    var ts := Mentioned(cfg, v13, reqs);
    forall c | c in CmdsOf(open)
      ensures exists t :: t in ts && Placed(v13, t, c)
    {
      var i :| 0 <= i < |open| && CmdsOf(open)[i] == c;
      assert open[i] in open;
      var t :| PlacedRow(v13, t, open[i]);
      MentionedIff(cfg, v13, reqs, t);
    }
  }

  /** What pends about a place is what the last form about its target stages for it, and the place accepts that. */
  lemma OwnAccepted(cfg: Slot, v13: bool, reqs: seq<Request>, open: seq<Row>, t: Target, f: Path)
    requires AllReady(cfg, v13, reqs) && LastPending(cfg, v13, reqs, open)
    requires t in Mentioned(cfg, v13, reqs) && f in Feet(v13, t)
    requires forall u | u in Mentioned(cfg, v13, reqs) :: Reachable(cfg, v13, u) && ValidTarget(u)
    ensures SchemaAt(DEVICE, f).Some?
    ensures Concerning(f, CmdsOf(open)) == Concerning(f, OwnCmds(cfg, v13, LastAbout(cfg, v13, reqs, t), t))
    ensures Run(SchemaAt(DEVICE, f).value, Get(cfg, f), Concerning(f, CmdsOf(open))).Applied?
  {
    hide Stage, Placed, Reachable, ValidTarget, Feet, Run, Get, Ready, LastAbout, SchemaAt;
    FootSchema(v13, t, f);
    OwnRowsConcern(v13, t, f, open);
    MentionedIff(cfg, v13, reqs, t);
    LastForm(cfg, v13, reqs, t);
    assert Ready(cfg, v13, LastAbout(cfg, v13, reqs, t).value);
    FormAlone(cfg, v13, LastAbout(cfg, v13, reqs, t).value, Mentioned(cfg, v13, reqs), t, f);
  }

  /** The rows pending after a run of stagings are accepted as one batch, and leave each place as its own rows do. */
  lemma BatchAccepted(cfg: Slot, v13: bool, reqs: seq<Request>, open: seq<Row>)
    requires AllReady(cfg, v13, reqs) && LastPending(cfg, v13, reqs, open)
    ensures
      var feet := AllFeet(v13, Mentioned(cfg, v13, reqs));
      var r := Run(DEVICE, cfg, CmdsOf(open));
      && r.Applied?
      && (forall t, f | t in Mentioned(cfg, v13, reqs) && f in Feet(v13, t) ::
            && SchemaAt(DEVICE, f).Some?
            && var inner := Run(SchemaAt(DEVICE, f).value, Get(cfg, f),
                                Concerning(f, OwnCmds(cfg, v13, LastAbout(cfg, v13, reqs, t), t)));
               inner.Applied? && Get(r.slot, f) == inner.slot)
      && (forall q | Beside(DEVICE, feet, CmdsOf(open), q) :: Get(r.slot, q) == Get(cfg, q))
      && (forall q | Above(feet, q) && Get(cfg, q).Some? :: Get(r.slot, q).Some?)
      && (forall c | c in CmdsOf(open) && Opening(DEVICE, feet, c) :: Get(r.slot, c.path).Some?)
  {
    hide Stage, Placed, Reachable, ValidTarget, Grounded, Housed, Beside, Above, Opening, Feet, Run, Get, Ready,
         LastAbout, SchemaAt, Concerning, OwnCmds, CmdsOf, AllFeet, Mentioned, LastPending;
    var ts := Mentioned(cfg, v13, reqs);
    var feet, cs := AllFeet(v13, ts), CmdsOf(open);
    MentionedReachable(cfg, v13, reqs);
    OpenPlaced(cfg, v13, reqs, open);
    PlacesGrounded(cfg, v13, ts);
    CmdsHoused(cfg, v13, ts, cs);
    forall t, f | t in ts && f in Feet(v13, t)
      ensures SchemaAt(DEVICE, f).Some?
      ensures Concerning(f, cs) == Concerning(f, OwnCmds(cfg, v13, LastAbout(cfg, v13, reqs, t), t))
      ensures Run(SchemaAt(DEVICE, f).value, Get(cfg, f), Concerning(f, cs)).Applied?
    {
      OwnAccepted(cfg, v13, reqs, open, t, f);
    }
    FeetAre(v13, ts);
    RunHoused(DEVICE, cfg, cs, feet);
  }

  lemma FeetAre(v13: bool, ts: seq<Target>)
    ensures forall f :: f in AllFeet(v13, ts) <==> exists t :: t in ts && f in Feet(v13, t)
  {
  }

  /** A place no mentioned target works at is beside the whole batch. */
  lemma UnmentionedBeside(cfg: Slot, v13: bool, reqs: seq<Request>, open: seq<Row>, t: Target, f: Path)
    requires LastPending(cfg, v13, reqs, open) && t !in Mentioned(cfg, v13, reqs) && f in Feet(v13, t)
    ensures Beside(DEVICE, AllFeet(v13, Mentioned(cfg, v13, reqs)), CmdsOf(open), f)
  {
    var ts := Mentioned(cfg, v13, reqs);
    var feet := AllFeet(v13, ts);
    FootHead(v13, t, f);
    forall g | g in feet
      ensures Apart(g, f)
    {
      var u :| u in ts && g in Feet(v13, u);
      FeetApart(v13, u, g, t, f);
    }
    OpenPlaced(cfg, v13, reqs, open);
    forall c | c in CmdsOf(open) && Opening(DEVICE, feet, c)
      ensures !(f <= c.path)
    {
      var u :| u in ts && Placed(v13, u, c);
      if g :| g in Feet(v13, u) && g <= c.path {
        NotOpening(DEVICE, feet, c, g);
        assert false;
      }
      assert c.path == ["interfaces", "ethernet", u.name];
    }
  }

  /** The outcome of committing one form alone. */
  function Alone(cfg: Slot, v13: bool, form: Form): Outcome {
    var staged := Stage(cfg, v13, form);
    if staged.Refused? then Applied(cfg) else Run(DEVICE, cfg, staged.cmds)
  }

  /** A place ends as committing the last form about its target alone would leave it, or as it was without one. */
  ghost predicate EndsAsLast(cfg: Slot, v13: bool, reqs: seq<Request>, after: Slot, t: Target, f: Path) {
    var form := LastAbout(cfg, v13, reqs, t);
    if form.None? then Get(after, f) == Get(cfg, f)
    else Alone(cfg, v13, form.value).Applied? && Get(after, f) == Get(Alone(cfg, v13, form.value).slot, f)
  }

  /**
   Last staging wins, in the configuration: after any run of stagings, discard-alls and failed commits from an empty
   tray, the device accepts the batch, and every place of every target ends exactly as committing the last form about that target alone
   would leave it, or as it was when no form about it is pending. Nodes opened by a bare `set` exist, live nodes above
   the places stay, and whatever is beside all of these is untouched.
   */
  lemma CommitPutsLast(initial: Slot, s: State, reqs: seq<Request>, saved: bool)
    requires Sound(initial, s) && PendingOf(s.rows) == [] && StagingRun(s, reqs)
    requires AllReady(s.live, s.v13, reqs)
    requires PendingOf(RunAll(s, reqs).rows) != []
    ensures
      var late := RunAll(s, reqs);
      var cmds := CmdsOf(PendingOf(late.rows));
      var feet := AllFeet(s.v13, Mentioned(s.live, s.v13, reqs));
      var after := Next(late, Commit(Accepts(saved)));
      && |after.commits| == |late.commits| + 1 && after.commits[|late.commits|].success
      && PendingOf(after.rows) == []
      && (forall t, f | f in Feet(s.v13, t) :: EndsAsLast(s.live, s.v13, reqs, after.live, t, f))
      && (forall c | c in cmds && Opening(DEVICE, feet, c) :: Get(after.live, c.path).Some?)
      && (forall q | Above(feet, q) && Get(s.live, q).Some? :: Get(after.live, q).Some?)
      && (forall q | Beside(DEVICE, feet, cmds, q) :: Get(after.live, q) == Get(s.live, q))
  {
    hide Stage, Placed, Reachable, ValidTarget, Beside, Above, Opening, Feet, Run, Get, Ready, LastAbout, SchemaAt,
         Tabled, Replays, Concerning, Mentioned, AllFeet, LastPending, StagingRun, AllReady;
    var cfg, v13, late := s.live, s.v13, RunAll(s, reqs);
    var open := PendingOf(late.rows);
    RunsSound(initial, s, reqs);
    RunTabled(s, reqs);
    assert NoneTaken(s, reqs) by { StagingTakesNone(s, reqs); }
    PendingIsLast(s, reqs);
    BatchAccepted(cfg, v13, reqs, open);
    CommitApplied(initial, late, saved);
    var after := Next(late, Commit(Accepts(saved)));
    assert after.live == Run(DEVICE, cfg, CmdsOf(open)).slot;
    forall t, f | f in Feet(v13, t)
      ensures EndsAsLast(cfg, v13, reqs, after.live, t, f)
    {
      PlaceEndsAsLast(cfg, v13, reqs, open, t, f);
    }
  }

  lemma PlaceEndsAsLast(cfg: Slot, v13: bool, reqs: seq<Request>, open: seq<Row>, t: Target, f: Path)
    requires AllReady(cfg, v13, reqs) && LastPending(cfg, v13, reqs, open) && f in Feet(v13, t)
    ensures
      var r := Run(DEVICE, cfg, CmdsOf(open));
      r.Applied? && EndsAsLast(cfg, v13, reqs, r.slot, t, f)
  {
    hide Stage, Placed, Reachable, ValidTarget, Beside, Above, Opening, Feet, Run, Get, Ready, LastAbout, SchemaAt,
         Concerning, Mentioned, AllFeet, LastPending;
    MentionedIff(cfg, v13, reqs, t);
    BatchAccepted(cfg, v13, reqs, open);
    if t !in Mentioned(cfg, v13, reqs) {
      UnmentionedBeside(cfg, v13, reqs, open, t, f);
    } else {
      LastForm(cfg, v13, reqs, t);
      MentionedReachable(cfg, v13, reqs);
      assert Ready(cfg, v13, LastAbout(cfg, v13, reqs, t).value);
      FormAlone(cfg, v13, LastAbout(cfg, v13, reqs, t).value, Mentioned(cfg, v13, reqs), t, f);
    }
  }

  lemma StagingTakesNone(s: State, reqs: seq<Request>)
    requires StagingRun(s, reqs)
    ensures NoneTaken(s, reqs)
  {
  }
}
