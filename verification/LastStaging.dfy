/** Between commits the last staging of every target wins, and a commit puts exactly that into the configuration. */
module LastStaging {
  import opened Options
  import opened ConfigTree
  import opened ChangeReview
  import opened ReviewLedger
  import opened ReviewRace
  import opened ReviewTargets

  /** Runs of submissions, discard-alls and commits that the device does not take. */
  predicate StagingRun(s: State, reqs: seq<Request>) {
    (forall i | 0 <= i < |reqs| :: !reqs[i].DiscardOne?) && NoneTaken(s, reqs)
  }

  /** The last accepted submission that is about `t`, since the last discard-all. */
  function LastAbout(cfg: Slot, v13: bool, reqs: seq<Request>, t: Target): Option<Form> {
    if reqs == [] then None
    else
      var last := reqs[|reqs| - 1];
      if last.DiscardAll? then None
      else if last.Submit? && Stage(cfg, v13, last.form).Staged? && t in Stage(cfg, v13, last.form).targets then
        Some(last.form)
      else LastAbout(cfg, v13, reqs[..|reqs| - 1], t)
  }

  // ── the rows of one target ─────────────────────────────────────────────────

  function RowsOf(t: Target, rows: seq<Row>): seq<Row> {
    Keep((r: Row) => Clears(t, r.section, r.cmd.path), rows)
  }

  /** The rows a form stages for a target. */
  function OwnCmds(cfg: Slot, v13: bool, form: Option<Form>, t: Target): seq<Cmd> {
    if form.None? || Stage(cfg, v13, form.value).Refused? then []
    else
      var staged := Stage(cfg, v13, form.value);
      CmdsOf(RowsOf(t, NewRows(0, SectionOf(staged.targets[0]), staged.cmds)))
  }

  ghost predicate PlacedRow(v13: bool, t: Target, r: Row) {
    Placed(v13, t, r.cmd) && r.section == SectionOf(t)
  }

  ghost predicate AllOwned(v13: bool, rows: seq<Row>) {
    forall r | r in rows :: exists t :: PlacedRow(v13, t, r)
  }

  lemma {:induction false} RenumberedRows(t: Target, a: nat, b: nat, section: string, cs: seq<Cmd>)
    ensures CmdsOf(RowsOf(t, NewRows(a, section, cs))) == CmdsOf(RowsOf(t, NewRows(b, section, cs)))
    decreases cs
  {
    if cs != [] {
      assert NewRows(a, section, cs)[1..] == NewRows(a + 1, section, cs[1..]);
      assert NewRows(b, section, cs)[1..] == NewRows(b + 1, section, cs[1..]);
      RenumberedRows(t, a + 1, b + 1, section, cs[1..]);
      CmdsAppend(if Clears(t, section, cs[0].path) then [NewRows(a, section, cs)[0]] else [],
                 RowsOf(t, NewRows(a + 1, section, cs[1..])));
      CmdsAppend(if Clears(t, section, cs[0].path) then [NewRows(b, section, cs)[0]] else [],
                 RowsOf(t, NewRows(b + 1, section, cs[1..])));
    }
  }

  /** Restaging removes all rows of its own targets. */
  lemma {:induction false} OwnRowsGone(ts: seq<Target>, t: Target, rows: seq<Row>)
    requires t in ts && AllPending(rows)
    ensures RowsOf(t, Unaffected(ts, rows)) == []
    decreases rows
  {
    if rows != [] {
      assert rows[0].status.Pending?;
      assert AllPending(rows[1..]) by { assert forall i | 0 <= i < |rows[1..]| :: rows[1..][i] == rows[i + 1]; }
      OwnRowsGone(ts, t, rows[1..]);
      var p := (x: Row) => x.status.Committed? || !ClearedByAny(ts, x);
      KeepAppend((x: Row) => Clears(t, x.section, x.cmd.path), if p(rows[0]) then [rows[0]] else [], Keep(p, rows[1..]));
      assert Clears(t, rows[0].section, rows[0].cmd.path) ==> ClearedByAny(ts, rows[0]);
    }
  }

  /** Restaging leaves the rows of every other target alone. */
  lemma {:induction false} OtherRowsStay(v13: bool, ts: seq<Target>, t: Target, rows: seq<Row>)
    requires t !in ts && AllOwned(v13, rows)
    ensures RowsOf(t, Unaffected(ts, rows)) == RowsOf(t, rows)
    decreases rows
  {
    if rows != [] {
      var r, rest := rows[0], rows[1..];
      assert AllOwned(v13, rest) by { assert forall x | x in rest :: x in rows; }
      OtherRowsStay(v13, ts, t, rest);
      assert r in rows;
      var owner :| PlacedRow(v13, owner, r);
      ClearsOwn(v13, owner, r.cmd, t);
      forall t' | t' in ts {
        ClearsOwn(v13, owner, r.cmd, t');
      }
      var p := (x: Row) => x.status.Committed? || !ClearedByAny(ts, x);
      KeepAppend((x: Row) => Clears(t, x.section, x.cmd.path), if p(r) then [r] else [], Keep(p, rest));
    }
  }

  lemma NewRowsOwned(cfg: Slot, v13: bool, form: Form, first: nat)
    requires Stage(cfg, v13, form).Staged?
    ensures
      var staged := Stage(cfg, v13, form);
      var rows := NewRows(first, SectionOf(staged.targets[0]), staged.cmds);
      && AllPending(rows)
      && (forall r | r in rows :: exists t :: t in staged.targets && PlacedRow(v13, t, r))
  {
    StagedPlaced(cfg, v13, form);
    var staged := Stage(cfg, v13, form);
    var rows := NewRows(first, SectionOf(staged.targets[0]), staged.cmds);
    forall r | r in rows
      ensures exists t :: t in staged.targets && PlacedRow(v13, t, r)
    {
      var i :| 0 <= i < |rows| && rows[i] == r;
      assert staged.cmds[i] in staged.cmds;
      var t :| t in staged.targets && Placed(v13, t, staged.cmds[i]);
      assert PlacedRow(v13, t, r);
    }
  }

  lemma {:induction false} NoRowsOf(v13: bool, t: Target, rows: seq<Row>, ts: seq<Target>)
    requires t !in ts && forall r | r in rows :: exists o :: o in ts && PlacedRow(v13, o, r)
    ensures RowsOf(t, rows) == []
  {
    forall i | 0 <= i < |rows|
      ensures !Clears(t, rows[i].section, rows[i].cmd.path)
    {
      assert rows[i] in rows;
      var o :| o in ts && PlacedRow(v13, o, rows[i]);
      ClearsOwn(v13, o, rows[i].cmd, t);
    }
    KeepNone((r: Row) => Clears(t, r.section, r.cmd.path), rows);
  }

  /** Every request leaves only pending rows that belong to a target. */
  lemma StepOwned(s: State, req: Request)
    requires Tabled(s) && AllOwned(s.v13, PendingOf(s.rows))
    ensures AllOwned(s.v13, PendingOf(Next(s, req).rows)) && Next(s, req).v13 == s.v13
  {
    hide Stage, Tabled, Clears, Placed, Keep;
    match req
    case Submit(form) =>
      var staged := Stage(s.live, s.v13, form);
      if staged.Staged? {
        SubmitTabled(s, staged.targets, SectionOf(staged.targets[0]), staged.cmds);
        KeepIn((r: Row) => r.status.Committed? || !ClearedByAny(staged.targets, r), PendingOf(s.rows));
        NewRowsOwned(s.live, s.v13, form, s.nextRow);
      }
    case DiscardOne(id) =>
      DiscardTabled(s, (r: Row) => r.id != id || r.status.Committed?);
      KeepIn((r: Row) => r.id != id || r.status.Committed?, PendingOf(s.rows));
    case DiscardAll => DiscardAllTabled(s);
    case Commit(reply) =>
      if Takes(s, req) {
        TakenEmpties(s, req);
      }
  }

  lemma {:induction false} RunOwned(s: State, reqs: seq<Request>)
    requires Tabled(s) && AllOwned(s.v13, PendingOf(s.rows))
    ensures
      var late := RunAll(s, reqs);
      Tabled(late) && late.v13 == s.v13 && AllOwned(late.v13, PendingOf(late.rows))
    decreases reqs
  {
    hide Tabled, Next, Takes, AllOwned, PendingOf, CommittedOf;
    if reqs != [] {
      StepOwned(s, reqs[0]);
      NextTabled(s, reqs[0]);
      RunOwned(Next(s, reqs[0]), reqs[1..]);
    }
  }

  /** The pending rows of every target are those of the last staging that is about it. */
  ghost predicate LastPending(cfg: Slot, v13: bool, reqs: seq<Request>, open: seq<Row>) {
    && AllPending(open) && AllOwned(v13, open)
    && (forall r, t | r in open && PlacedRow(v13, t, r) :: LastAbout(cfg, v13, reqs, t).Some?)
    && (forall t :: CmdsOf(RowsOf(t, open)) == OwnCmds(cfg, v13, LastAbout(cfg, v13, reqs, t), t))
  }

  lemma LastAboutStep(cfg: Slot, v13: bool, before: seq<Request>, last: Request, t: Target)
    ensures LastAbout(cfg, v13, before + [last], t) ==
            if last.DiscardAll? then None
            else if last.Submit? && Stage(cfg, v13, last.form).Staged? && t in Stage(cfg, v13, last.form).targets then
              Some(last.form)
            else LastAbout(cfg, v13, before, t)
  {
    assert (before + [last])[..|before|] == before;
  }

  /** After a staging, the rows of its own targets are its new ones, and those of other targets are as they were. */
  lemma SubmitRows(cfg: Slot, v13: bool, before: seq<Request>, form: Form, open: seq<Row>, first: nat, t: Target)
    requires LastPending(cfg, v13, before, open) && Stage(cfg, v13, form).Staged?
    ensures
      var staged := Stage(cfg, v13, form);
      CmdsOf(RowsOf(t, Unaffected(staged.targets, open) + NewRows(first, SectionOf(staged.targets[0]), staged.cmds))) ==
      OwnCmds(cfg, v13, LastAbout(cfg, v13, before + [Submit(form)], t), t)
  {
    hide Stage, Placed, Clears, ClearedByAny, LastAbout, Get;
    StagedPlaced(cfg, v13, form);
    var staged := Stage(cfg, v13, form);
    var ts := staged.targets;
    var kept, added := Unaffected(ts, open), NewRows(first, SectionOf(ts[0]), staged.cmds);
    NewRowsOwned(cfg, v13, form, first);
    LastAboutStep(cfg, v13, before, Submit(form), t);
    KeepAppend((r: Row) => Clears(t, r.section, r.cmd.path), kept, added);
    if t in ts {
      OwnRowsGone(ts, t, open);
      assert [] + RowsOf(t, added) == RowsOf(t, added);
      RenumberedRows(t, first, 0, SectionOf(ts[0]), staged.cmds);
    } else {
      OtherRowsStay(v13, ts, t, open);
      NoRowsOf(v13, t, added, ts);
      assert RowsOf(t, open) + [] == RowsOf(t, open);
    }
  }

  lemma SubmitPending(cfg: Slot, v13: bool, before: seq<Request>, form: Form, open: seq<Row>, first: nat)
    requires LastPending(cfg, v13, before, open) && Stage(cfg, v13, form).Staged?
    ensures
      var staged := Stage(cfg, v13, form);
      LastPending(cfg, v13, before + [Submit(form)],
                  Unaffected(staged.targets, open) + NewRows(first, SectionOf(staged.targets[0]), staged.cmds))
  {
    hide Stage, Placed, Clears, LastAbout, Get, CmdsOf, OwnCmds, RowsOf;
    StagedPlaced(cfg, v13, form);
    var staged := Stage(cfg, v13, form);
    var ts := staged.targets;
    var kept, added := Unaffected(ts, open), NewRows(first, SectionOf(ts[0]), staged.cmds);
    NewRowsOwned(cfg, v13, form, first);
    KeepIn((r: Row) => r.status.Committed? || !ClearedByAny(ts, r), open);
    forall i | 0 <= i < |kept| ensures kept[i].status.Pending? && kept[i].commitId.None? { assert kept[i] in open; }
    forall t {
      SubmitRows(cfg, v13, before, form, open, first, t);
    }
    forall r, t | r in kept + added && PlacedRow(v13, t, r)
      ensures LastAbout(cfg, v13, before + [Submit(form)], t).Some?
    {
      LastAboutStep(cfg, v13, before, Submit(form), t);
      if r in added {
        var o :| o in ts && PlacedRow(v13, o, r);
        ClearsOwn(v13, o, r.cmd, t);
        ClearsOwn(v13, t, r.cmd, t);
      }
    }
  }

  lemma LastStep(s: State, before: seq<Request>, last: Request)
    requires Tabled(s) && !last.DiscardOne? && !Takes(s, last)
    requires LastPending(s.live, s.v13, before, PendingOf(s.rows))
    ensures LastPending(s.live, s.v13, before + [last], PendingOf(Next(s, last).rows))
  {
    if last.DiscardAll? {
      Splits(CommittedOf(s.rows), [], |s.commits|);
      assert CommittedOf(s.rows) + [] == CommittedOf(s.rows);
      forall t {
        LastAboutStep(s.live, s.v13, before, last, t);
      }
    } else if last.Commit? {
      assert Next(s, last).rows == s.rows;
      forall t {
        LastAboutStep(s.live, s.v13, before, last, t);
      }
    } else {
      var staged := Stage(s.live, s.v13, last.form);
      if staged.Staged? {
        SubmitTabled(s, staged.targets, SectionOf(staged.targets[0]), staged.cmds);
        SubmitPending(s.live, s.v13, before, last.form, PendingOf(s.rows), s.nextRow);
      } else {
        forall t {
          LastAboutStep(s.live, s.v13, before, last, t);
        }
      }
    }
  }

  /**
   After any run of stagings, discard-alls and failed commits from an empty tray, the pending rows of every target are
   those of the last staging that is about it, and no other row is pending.
   */
  lemma {:induction false} PendingIsLast(s: State, reqs: seq<Request>)
    requires Tabled(s) && PendingOf(s.rows) == [] && StagingRun(s, reqs)
    ensures LastPending(s.live, s.v13, reqs, PendingOf(RunAll(s, reqs).rows))
    decreases reqs
  {
    hide Tabled, Stage, LastAbout, Clears, Next, LastPending, Takes;
    if reqs == [] {
      NothingPending(s.live, s.v13);
    } else {
      var before, last := reqs[..|reqs| - 1], reqs[|reqs| - 1];
      assert reqs == before + [last];
      NoneTakenSplits(s, before, last);
      PendingIsLast(s, before);
      RunAllAppend(s, before, last);
      RunTabled(s, before);
      LastStep(RunAll(s, before), before, last);
    }
  }

  lemma NothingPending(cfg: Slot, v13: bool)
    ensures LastPending(cfg, v13, [], [])
  {
  }

  lemma {:induction false} RunAllAppend(s: State, before: seq<Request>, last: Request)
    ensures RunAll(s, before + [last]) == Next(RunAll(s, before), last)
    decreases before
  {
    if before == [] {
      assert before + [last] == [last] && [last][1..] == [];
    } else {
      assert (before + [last])[1..] == before[1..] + [last];
      RunAllAppend(Next(s, before[0]), before[1..], last);
    }
  }
}
