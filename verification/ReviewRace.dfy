/**
 A commit reads the pending rows, fires them, and then marks whatever is pending by then. This is exactly when the
 commit links the rows it fired, whatever requests - further commits among them - slip in between.
 */
module ReviewRace {
  import opened Options
  import opened Text
  import opened ConfigTree
  import opened DeviceSchema
  import opened ChangeReview
  import opened ReviewLedger

  // ── a commit in three steps ────────────────────────────────────────────────

  /** The rows selected earlier reach the device. */
  function Fire(fired: seq<Row>, s: State): State
    requires Run(DEVICE, s.live, CmdsOf(fired)).Applied?
  {
    s.(live := Run(DEVICE, s.live, CmdsOf(fired)).slot)
  }

  /** The commit is recorded with the number of rows fired, and whatever is pending by now is marked. */
  function Finish(fired: seq<Row>, late: State, saved: bool): State {
    var k := |late.commits|;
    late.(rows := Mark(late.rows, k), commits := late.commits + [CommitRow(k, true, |fired|, saved)])
  }

  /** With nothing in between the three steps are one commit. */
  lemma StepsAreCommit(s: State, saved: bool)
    requires PendingOf(s.rows) != [] && Run(DEVICE, s.live, CmdsOf(PendingOf(s.rows))).Applied?
    ensures Finish(PendingOf(s.rows), Fire(PendingOf(s.rows), s), saved) == Next(s, Commit(Accepts(saved)))
  {
    hide PendingOf, Run, CmdsOf, Mark;
  }

  /** No commit of the run is taken by the device. */
  predicate NoneTaken(s: State, reqs: seq<Request>)
    decreases reqs
  {
    reqs == [] || (!Takes(s, reqs[0]) && NoneTaken(Next(s, reqs[0]), reqs[1..]))
  }

  lemma {:induction false} RunTabled(s: State, reqs: seq<Request>)
    requires Tabled(s)
    ensures
      var late := RunAll(s, reqs);
      && Tabled(late) && s.nextRow <= late.nextRow && late.v13 == s.v13
      && (NoneTaken(s, reqs) ==> CommittedOf(late.rows) == CommittedOf(s.rows) && late.live == s.live)
    decreases reqs
  {
    hide Tabled, Next, Takes, CommittedOf;
    if reqs != [] {
      NextTabled(s, reqs[0]);
      RunTabled(Next(s, reqs[0]), reqs[1..]);
    }
  }

  lemma {:induction false} NoneTakenSplits(s: State, before: seq<Request>, last: Request)
    requires NoneTaken(s, before + [last])
    ensures NoneTaken(s, before) && !Takes(RunAll(s, before), last)
    decreases before
  {
    hide Takes, Next;
    if before == [] {
      assert (before + [last])[0] == last;
    } else {
      assert (before + [last])[1..] == before[1..] + [last];
      NoneTakenSplits(Next(s, before[0]), before[1..], last);
    }
  }

  // ── rows do not come back ──────────────────────────────────────────────────

  /** All pending rows are at least as new as row `n`. */
  ghost predicate PendingFrom(s: State, n: nat) {
    forall r | r in PendingOf(s.rows) :: r.id >= n
  }

  lemma StepPendingFrom(s: State, req: Request, n: nat)
    requires Tabled(s) && PendingFrom(s, n) && n <= s.nextRow
    ensures PendingFrom(Next(s, req), n)
  {
    hide Run, Stage, Tabled, CmdsOf, Keep, ClearedByAny;
    match req
    case Submit(form) =>
      var staged := Stage(s.live, s.v13, form);
      if staged.Staged? {
        SubmitTabled(s, staged.targets, SectionOf(staged.targets[0]), staged.cmds);
        KeepIn((r: Row) => r.status.Committed? || !ClearedByAny(staged.targets, r), PendingOf(s.rows));
      }
    case DiscardOne(id) =>
      DiscardTabled(s, (r: Row) => r.id != id || r.status.Committed?);
      KeepIn((r: Row) => r.id != id || r.status.Committed?, PendingOf(s.rows));
    case DiscardAll => DiscardAllTabled(s);
    case Commit(reply) =>
      if Takes(s, req) {
        MarkedRows(s, |s.commits|);
      }
  }

  lemma {:induction false} RunPendingFrom(s: State, reqs: seq<Request>, n: nat)
    requires Tabled(s) && PendingFrom(s, n) && n <= s.nextRow
    ensures PendingFrom(RunAll(s, reqs), n)
    decreases reqs
  {
    hide Tabled, Next, PendingFrom, CommittedOf, Takes;
    if reqs != [] {
      NextTabled(s, reqs[0]);
      StepPendingFrom(s, reqs[0], n);
      RunPendingFrom(Next(s, reqs[0]), reqs[1..], n);
    }
  }

  lemma TakenEmpties(s: State, req: Request)
    requires Tabled(s) && Takes(s, req)
    ensures PendingOf(Next(s, req).rows) == []
  {
    hide Run, CmdsOf, Keep, Tabled;
    MarkedRows(s, |s.commits|);
  }

  /** Once a commit has been taken, none of the rows staged before the run is ever pending again. */
  lemma {:induction false} TakenMovesOn(s: State, reqs: seq<Request>)
    requires Tabled(s) && !NoneTaken(s, reqs)
    ensures PendingFrom(RunAll(s, reqs), s.nextRow)
    decreases reqs
  {
    hide Tabled, Next, CommittedOf, Takes, PendingOf;
    var next := Next(s, reqs[0]);
    NextTabled(s, reqs[0]);
    if Takes(s, reqs[0]) {
      TakenEmpties(s, reqs[0]);
      RunPendingFrom(next, reqs[1..], s.nextRow);
    } else {
      TakenMovesOn(next, reqs[1..]);
    }
  }

  // ── late marking ───────────────────────────────────────────────────────────

  lemma {:induction false} MarkInjective(a: seq<Row>, b: seq<Row>, k: nat)
    requires AllPending(a) && AllPending(b) && Mark(a, k) == Mark(b, k)
    ensures a == b
  {
    MarkAll(a, k);
    MarkAll(b, k);
    forall i | 0 <= i < |a|
      ensures a[i] == b[i]
    {
      assert Mark(a, k)[i] == Mark(b, k)[i];
    }
  }

  /** The rows linked to the new commit are those that were pending when it was recorded. */
  lemma FinishLinks(fired: seq<Row>, late: State, saved: bool)
    requires Tabled(late)
    ensures LinkedTo(|late.commits|, Finish(fired, late, saved).rows) == Mark(PendingOf(late.rows), |late.commits|)
  {
    hide InOrder, CountsLinked;
    var k := |late.commits|;
    var done, marked := CommittedOf(late.rows), Mark(PendingOf(late.rows), k);
    MarkedRows(late, k);
    MarkAll(PendingOf(late.rows), k);
    KeepAppend((r: Row) => r.commitId == Some(k), done, marked);
    KeepNone((r: Row) => r.commitId == Some(k), done);
    KeepAll((r: Row) => r.commitId == Some(k), marked);
  }

  lemma FinishTabledIff(fired: seq<Row>, late: State, saved: bool)
    requires Tabled(late)
    ensures Tabled(Finish(fired, late, saved)) <==> |PendingOf(late.rows)| == |fired|
    ensures CmdsOf(CommittedOf(Finish(fired, late, saved).rows)) ==
            CmdsOf(CommittedOf(late.rows)) + CmdsOf(PendingOf(late.rows))
  {
    hide InOrder, LinkedTo, Keep, Mark;
    var end, k := Finish(fired, late, saved), |late.commits|;
    MarkedRows(late, k);
    if |PendingOf(late.rows)| == |fired| {
      MarkTabled(late, end.commits[k], late.live);
    } else {
      FinishLinks(fired, late, saved);
      MarkAll(PendingOf(late.rows), k);
      assert |LinkedTo(k, end.rows)| == |PendingOf(late.rows)| && end.commits[k].changeCount == |fired|;
    }
  }

  /**
   Whatever happened since the rows were selected, recording the commit leaves a sound ledger if and only if the rows
   it marks are as many as were fired and bring the configuration of the ledger to the one the device runs.
   */
  lemma LateMarkingSoundIff(initial: Slot, fired: seq<Row>, late: State, base: Slot, saved: bool)
    requires Tabled(late) && Run(DEVICE, initial, CmdsOf(CommittedOf(late.rows))) == Applied(base)
    ensures
      Sound(initial, Finish(fired, late, saved)) <==>
      && |PendingOf(late.rows)| == |fired|
      && Run(DEVICE, base, CmdsOf(PendingOf(late.rows))) == Applied(late.live)
  {
    hide Run, Tabled, CmdsOf, CommittedOf, PendingOf;
    FinishTabledIff(fired, late, saved);
    RunAppend(DEVICE, initial, CmdsOf(CommittedOf(late.rows)), CmdsOf(PendingOf(late.rows)));
  }

  /** A commit taken in the meantime takes the first selected row out of the pending ones for good. */
  lemma TakenLosesRow(sent: State, early: seq<Request>, shot: State, tardy: seq<Request>)
    requires Tabled(sent) && PendingOf(sent.rows) != []
    requires shot == RunAll(sent, early).(live := shot.live)
    ensures !(NoneTaken(sent, early) && NoneTaken(shot, tardy)) ==>
              PendingOf(sent.rows)[0] !in PendingOf(RunAll(shot, tardy).rows)
  {
    hide RunAll, Tabled, PendingOf;
    RunTabled(sent, early);
    SameTables(RunAll(sent, early), shot.live);
    SelectedIsOld(sent);
    if !NoneTaken(shot, tardy) {
      TakenMovesOn(shot, tardy);
    } else if !NoneTaken(sent, early) {
      TakenMovesOn(sent, early);
      RunPendingFrom(shot, tardy, sent.nextRow);
    }
  }

  lemma SameTables(s: State, live: Slot)
    requires Tabled(s)
    ensures Tabled(s.(live := live))
  {
  }

  lemma SelectedIsOld(s: State)
    requires Tabled(s) && PendingOf(s.rows) != []
    ensures PendingOf(s.rows)[0].id < s.nextRow
  {
    assert s.rows[|CommittedOf(s.rows)|] == PendingOf(s.rows)[0];
  }

  /**
   The race in full: any requests may come between selecting and firing and between firing and marking, commits
   included. The ledger is sound and the new commit links exactly the rows it fired if and only if, when it marks, the
   pending rows are the ones it selected. That unchanged pending rows keep the ledger sound rules out every other
   commit in between; that linking the fired rows needs them unchanged is what `FinishLinks` says.
   */
  lemma RaceHarmlessIff(initial: Slot, sent: State, early: seq<Request>, tardy: seq<Request>, saved: bool)
    requires Sound(initial, sent) && PendingOf(sent.rows) != []
    requires Run(DEVICE, RunAll(sent, early).live, CmdsOf(PendingOf(sent.rows))).Applied?
    ensures
      var fired := PendingOf(sent.rows);
      var late := RunAll(Fire(fired, RunAll(sent, early)), tardy);
      var end := Finish(fired, late, saved);
      (Sound(initial, end) && LinkedTo(|late.commits|, end.rows) == Mark(fired, |late.commits|))
      <==> PendingOf(late.rows) == fired
  {
    hide Run, RunAll, CmdsOf, CommittedOf, PendingOf, LinkedTo, Mark, InOrder, CountsLinked, AllCommitted;
    var fired, between := PendingOf(sent.rows), RunAll(sent, early);
    var shot := Fire(fired, between);
    var late := RunAll(shot, tardy);
    RunTabled(sent, early);
    RunTabled(shot, tardy);
    FinishLinks(fired, late, saved);
    TakenLosesRow(sent, early, shot, tardy);
    if PendingOf(late.rows) == fired {
      assert fired[0] in PendingOf(late.rows);
      LateMarkingSoundIff(initial, fired, late, sent.live, saved);
    } else if LinkedTo(|late.commits|, Finish(fired, late, saved).rows) == Mark(fired, |late.commits|) {
      MarkInjective(PendingOf(late.rows), fired, |late.commits|);
    }
  }

  // ── two races that do harm ─────────────────────────────────────────────────

  /** Two commits select the same rows: the one that marks last counts rows that are all linked to the other. */
  lemma SecondCommitBreaksLedger(initial: Slot, sent: State, first: bool, second: bool)
    requires Tabled(sent) && PendingOf(sent.rows) != []
    requires Run(DEVICE, sent.live, CmdsOf(PendingOf(sent.rows))).Applied?
    requires Takes(Fire(PendingOf(sent.rows), sent), Commit(Accepts(second)))
    ensures
      var fired := PendingOf(sent.rows);
      var late := Next(Fire(fired, sent), Commit(Accepts(second)));
      !Sound(initial, Finish(fired, late, first))
  {
    hide Run, Tabled, CmdsOf, CommittedOf, PendingOf, Next, Takes;
    var fired := PendingOf(sent.rows);
    var shot := Fire(fired, sent);
    SameTables(sent, shot.live);
    NextTabled(shot, Commit(Accepts(second)));
    TakenEmpties(shot, Commit(Accepts(second)));
    FinishTabledIff(fired, Next(shot, Commit(Accepts(second))), first);
  }

  /** Such a race, from the first request on: one staged rule deletion and two commits. */
  lemma TwoCommitsOfOneDeletion(live: Slot, v13: bool, num: u32, first: bool, second: bool)
    ensures
      var sent := Next(State([], [], 0, live, v13), Submit(DeleteRule("source", num)));
      var fired := PendingOf(sent.rows);
      && Sound(live, sent) && Run(DEVICE, sent.live, CmdsOf(fired)).Applied?
      && !Sound(live, Finish(fired, Next(Fire(fired, sent), Commit(Accepts(second))), first))
  {
    hide Tabled, Replays, Get;
    var start := State([], [], 0, live, v13);
    var sent := Next(start, Submit(DeleteRule("source", num)));
    FreshSound(live, start);
    NextSound(live, start, Submit(DeleteRule("source", num)));
    OneDeletion(live, v13, num);
    SecondCommitBreaksLedger(live, sent, first, second);
  }

  lemma OneDeletion(live: Slot, v13: bool, num: u32)
    ensures
      var sent := Next(State([], [], 0, live, v13), Submit(DeleteRule("source", num)));
      var cmds := CmdsOf(PendingOf(sent.rows));
      PendingOf(sent.rows) != [] && sent.live == live && forall cur :: Run(DEVICE, cur, cmds).Applied?
  {
    hide Get, DeleteAt;
    var staged := Stage(live, v13, DeleteRule("source", num));
    var added := NewRows(0, "nat", staged.cmds);
    assert Unaffected(staged.targets, []) + added == added;
    KeepAll((r: Row) => r.status.Pending?, added);
    assert CmdsOf(added) == [staged.cmds[0]];
    forall cur
      ensures Run(DEVICE, cur, [staged.cmds[0]]).Applied?
    {
      RunOne(DEVICE, cur, staged.cmds[0]);
    }
  }

  /** A rule deletion submitted while a commit is under way is marked committed without ever being fired. */
  lemma LateRowBreaksLedger(initial: Slot, s: State, num: u32, saved: bool)
    requires Tabled(s) && PendingOf(s.rows) != []
    requires forall i | 0 <= i < |s.rows| :: !Clears(Rule("source", num), s.rows[i].section, s.rows[i].cmd.path)
    requires Run(DEVICE, s.live, CmdsOf(PendingOf(s.rows))).Applied?
    ensures
      var fired := PendingOf(s.rows);
      var late := Next(s, Submit(DeleteRule("source", num)));
      late.live == s.live && !Sound(initial, Finish(fired, Fire(fired, late), saved))
  {
    hide Run, Tabled, Clears, LinkedTo, Get;
    var form := DeleteRule("source", num);
    var staged := Stage(s.live, s.v13, form);
    var late := Next(s, Submit(form));
    SubmitTabled(s, staged.targets, "nat", staged.cmds);
    assert Unaffected(staged.targets, PendingOf(s.rows)) == PendingOf(s.rows) by {
      KeepIn((r: Row) => r.status.Pending?, s.rows);
      forall i | 0 <= i < |PendingOf(s.rows)|
        ensures !ClearedByAny(staged.targets, PendingOf(s.rows)[i])
      {
        assert PendingOf(s.rows)[i] in s.rows;
      }
      KeepAll((r: Row) => r.status.Committed? || !ClearedByAny(staged.targets, r), PendingOf(s.rows));
    }
    var shot := Fire(PendingOf(s.rows), late);
    SameTables(late, shot.live);
    FinishTabledIff(PendingOf(s.rows), shot, saved);
  }
}
