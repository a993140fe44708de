/** The committed rows are a ledger: replaying them from the initial configuration gives the running one. */
module ReviewLedger {
  import opened Options
  import opened ConfigTree
  import opened DeviceSchema
  import opened ChangeReview

  function LinkedTo(k: nat, rows: seq<Row>): seq<Row> {
    Keep((r: Row) => r.commitId == Some(k), rows)
  }

  ghost predicate AllCommitted(rows: seq<Row>, commits: nat) {
    forall i | 0 <= i < |rows| ::
      rows[i].status.Committed? && rows[i].commitId.Some? && rows[i].commitId.value < commits
  }

  ghost predicate AllPending(rows: seq<Row>) {
    forall i | 0 <= i < |rows| :: rows[i].status.Pending? && rows[i].commitId.None?
  }

  predicate Earlier(a: Row, b: Row) {
    a.id < b.id && (b.commitId.Some? ==> a.commitId.Some? && a.commitId.value <= b.commitId.value)
  }

  /** Rows are in staging order, and committed rows in commit order. */
  ghost predicate InOrder(rows: seq<Row>, next: nat) {
    && (forall i | 0 <= i < |rows| :: rows[i].id < next)
    && (forall i, j | 0 <= i < j < |rows| :: Earlier(rows[i], rows[j]))
  }

  /** A successful commit counts the rows linked to it; a failed one has none. */
  ghost predicate CountsLinked(rows: seq<Row>, commits: seq<CommitRow>) {
    forall k | 0 <= k < |commits| ::
      && commits[k].id == k
      && |LinkedTo(k, rows)| == (if commits[k].success then commits[k].changeCount else 0)
      && (commits[k].saved ==> commits[k].success)
  }

  /** The two tables agree with each other, whatever the device runs. */
  ghost predicate Tabled(s: State) {
    var done, open := CommittedOf(s.rows), PendingOf(s.rows);
    && s.rows == done + open
    && AllCommitted(done, |s.commits|) && AllPending(open)
    && InOrder(s.rows, s.nextRow)
    && CountsLinked(s.rows, s.commits)
  }

  /** The device runs what the committed rows make of the initial configuration. */
  ghost predicate Replays(initial: Slot, s: State) {
    Run(DEVICE, initial, CmdsOf(CommittedOf(s.rows))) == Applied(s.live)
  }

  ghost predicate Sound(initial: Slot, s: State) {
    Tabled(s) && Replays(initial, s)
  }

  // ── keeping rows ───────────────────────────────────────────────────────────

  lemma {:induction false} KeepAppend(p: Row -> bool, a: seq<Row>, b: seq<Row>)
    ensures Keep(p, a + b) == Keep(p, a) + Keep(p, b)
    decreases a
  {
    if a == [] {
      assert a + b == b;
    } else {
      var first := if p(a[0]) then [a[0]] else [];
      assert (a + b)[0] == a[0] && (a + b)[1..] == a[1..] + b;
      KeepAppend(p, a[1..], b);
      assert first + (Keep(p, a[1..]) + Keep(p, b)) == (first + Keep(p, a[1..])) + Keep(p, b);
    }
  }

  lemma {:induction false} KeepAll(p: Row -> bool, rows: seq<Row>)
    requires forall i | 0 <= i < |rows| :: p(rows[i])
    ensures Keep(p, rows) == rows
    decreases rows
  {
    if rows != [] {
      assert p(rows[0]);
      forall i | 0 <= i < |rows[1..]| ensures p(rows[1..][i]) { assert rows[1..][i] == rows[i + 1]; }
      KeepAll(p, rows[1..]);
    }
  }

  lemma {:induction false} KeepNone(p: Row -> bool, rows: seq<Row>)
    requires forall i | 0 <= i < |rows| :: !p(rows[i])
    ensures Keep(p, rows) == []
    decreases rows
  {
    if rows != [] {
      forall i | 0 <= i < |rows[1..]| ensures !p(rows[1..][i]) { assert rows[1..][i] == rows[i + 1]; }
      KeepNone(p, rows[1..]);
    }
  }

  /** What is kept comes from the list, in its order. */
  lemma {:induction false} KeepIn(p: Row -> bool, rows: seq<Row>)
    ensures forall r :: r in Keep(p, rows) <==> r in rows && p(r)
    decreases rows
  {
    if rows != [] {
      KeepIn(p, rows[1..]);
      assert rows == [rows[0]] + rows[1..];
    }
  }

  lemma {:induction false} KeepInOrder(p: Row -> bool, rows: seq<Row>, next: nat)
    requires InOrder(rows, next)
    ensures InOrder(Keep(p, rows), next)
    decreases rows
  {
    hide Earlier;
    if rows != [] {
      var rest := rows[1..];
      var kept := Keep(p, rest);
      assert forall i | 0 <= i < |rest| :: rest[i] == rows[i + 1];
      KeepInOrder(p, rest, next);
      KeepIn(p, rest);
      forall j | 0 <= j < |kept|
        ensures Earlier(rows[0], kept[j])
      {
        assert kept[j] in kept;
        var i :| 0 <= i < |rest| && rest[i] == kept[j];
      }
    }
  }

  /** A table of committed rows followed by pending ones splits into the two. */
  lemma Splits(done: seq<Row>, open: seq<Row>, commits: nat)
    requires AllCommitted(done, commits) && AllPending(open)
    ensures CommittedOf(done + open) == done && PendingOf(done + open) == open
  {
    KeepAppend((r: Row) => r.status.Committed?, done, open);
    KeepAppend((r: Row) => r.status.Pending?, done, open);
    KeepAll((r: Row) => r.status.Committed?, done);
    KeepNone((r: Row) => r.status.Committed?, open);
    KeepNone((r: Row) => r.status.Pending?, done);
    KeepAll((r: Row) => r.status.Pending?, open);
  }

  lemma LinkedSplits(k: nat, done: seq<Row>, open: seq<Row>)
    requires AllPending(open)
    ensures LinkedTo(k, done + open) == LinkedTo(k, done)
  {
    KeepAppend((r: Row) => r.commitId == Some(k), done, open);
    KeepNone((r: Row) => r.commitId == Some(k), open);
  }

  // ── one step ───────────────────────────────────────────────────────────────

  /** Steps that only change the pending rows. */
  lemma PendingChange(s: State, open: seq<Row>, next: nat)
    requires Tabled(s) && AllPending(open)
    requires InOrder(CommittedOf(s.rows) + open, next)
    ensures Tabled(s.(rows := CommittedOf(s.rows) + open, nextRow := next))
  {
    var done := CommittedOf(s.rows);
    Splits(done, open, |s.commits|);
    forall k | 0 <= k < |s.commits|
      ensures LinkedTo(k, done + open) == LinkedTo(k, s.rows)
    {
      LinkedSplits(k, done, open);
      LinkedSplits(k, done, PendingOf(s.rows));
    }
  }

  /** A filter that spares committed rows keeps the ledger part and filters the rest. */
  lemma Filtered(s: State, p: Row -> bool)
    requires Tabled(s) && forall r: Row | r.status.Committed? :: p(r)
    ensures Keep(p, s.rows) == CommittedOf(s.rows) + Keep(p, PendingOf(s.rows))
    ensures AllPending(Keep(p, PendingOf(s.rows)))
    ensures InOrder(Keep(p, s.rows), s.nextRow)
  {
    var done, open := CommittedOf(s.rows), PendingOf(s.rows);
    KeepAppend(p, done, open);
    KeepAll(p, done);
    KeepInOrder(p, s.rows, s.nextRow);
    KeepIn(p, open);
    forall i | 0 <= i < |Keep(p, open)|
      ensures Keep(p, open)[i].status.Pending? && Keep(p, open)[i].commitId.None?
    {
      assert Keep(p, open)[i] in open;
    }
  }

  lemma {:induction false} MarkAll(open: seq<Row>, k: nat)
    requires AllPending(open)
    ensures |Mark(open, k)| == |open|
    ensures forall i | 0 <= i < |open| :: Mark(open, k)[i] == open[i].(status := Committed, commitId := Some(k))
    decreases open
  {
    if open != [] {
      MarkAll(open[1..], k);
    }
  }

  lemma {:induction false} MarkAppend(done: seq<Row>, open: seq<Row>, k: nat, commits: nat)
    requires AllCommitted(done, commits)
    ensures Mark(done + open, k) == done + Mark(open, k)
    decreases done
  {
    if done == [] {
      assert done + open == open;
    } else {
      assert (done + open)[1..] == done[1..] + open;
      assert AllCommitted(done[1..], commits);
      MarkAppend(done[1..], open, k, commits);
    }
  }

  lemma CmdsAppend(a: seq<Row>, b: seq<Row>)
    ensures CmdsOf(a + b) == CmdsOf(a) + CmdsOf(b)
  {
  }

  lemma SameCmds(a: seq<Row>, b: seq<Row>)
    requires |a| == |b| && forall i | 0 <= i < |a| :: a[i].cmd == b[i].cmd
    ensures CmdsOf(a) == CmdsOf(b)
  {
  }

  /** Marking the pending rows for a new commit that counts them keeps the tables in agreement. */
  lemma MarkTabled(s: State, c: CommitRow, live: Slot)
    requires Tabled(s) && c.id == |s.commits| && c.success && c.changeCount == |PendingOf(s.rows)|
    ensures
      var s' := s.(rows := Mark(s.rows, c.id), commits := s.commits + [c], live := live);
      && Tabled(s')
      && CommittedOf(s'.rows) == CommittedOf(s.rows) + Mark(PendingOf(s.rows), c.id)
      && PendingOf(s'.rows) == []
      && CmdsOf(CommittedOf(s'.rows)) == CmdsOf(CommittedOf(s.rows)) + CmdsOf(PendingOf(s.rows))
  {
    hide InOrder, CountsLinked, Keep;
    MarkedRows(s, c.id);
    MarkedOrder(CommittedOf(s.rows), PendingOf(s.rows), c.id, s.nextRow);
    MarkedCounts(CommittedOf(s.rows), PendingOf(s.rows), s.commits, c);
    assert Mark(s.rows, c.id) + [] == Mark(s.rows, c.id);
  }

  /** Where the marked rows of a table stand. */
  lemma MarkedRows(s: State, k: nat)
    requires Tabled(s) && k == |s.commits|
    ensures
      var done, marked := CommittedOf(s.rows), Mark(PendingOf(s.rows), k);
      && Mark(s.rows, k) == done + marked && AllCommitted(done + marked, k + 1)
      && CommittedOf(Mark(s.rows, k)) == done + marked && PendingOf(Mark(s.rows, k)) == []
      && CmdsOf(done + marked) == CmdsOf(done) + CmdsOf(PendingOf(s.rows))
  {
    hide InOrder, CountsLinked, Keep;
    var done, open := CommittedOf(s.rows), PendingOf(s.rows);
    var marked := Mark(open, k);
    MarkAppend(done, open, k, k);
    MarkAll(open, k);
    assert done + marked + [] == done + marked;
    Splits(done + marked, [], k + 1);
    SameCmds(marked, open);
    CmdsAppend(done, marked);
  }

  /** A successful commit moves the whole pending part into the ledger. */
  lemma CommitApplied(initial: Slot, s: State, saved: bool)
    requires Sound(initial, s) && PendingOf(s.rows) != []
    requires Run(DEVICE, s.live, CmdsOf(PendingOf(s.rows))).Applied?
    ensures
      var s' := Next(s, Commit(Accepts(saved)));
      && Sound(initial, s')
      && CommittedOf(s'.rows) == CommittedOf(s.rows) + Mark(PendingOf(s.rows), |s.commits|)
      && PendingOf(s'.rows) == []
  {
    hide Run, Tabled, Stage, Keep, Mark, CmdsOf;
    var s' := Next(s, Commit(Accepts(saved)));
    MarkTabled(s, s'.commits[|s.commits|], s'.live);
    RunAppend(DEVICE, initial, CmdsOf(CommittedOf(s.rows)), CmdsOf(PendingOf(s.rows)));
  }

  lemma MarkedOrder(done: seq<Row>, open: seq<Row>, k: nat, next: nat)
    requires AllCommitted(done, k) && AllPending(open) && InOrder(done + open, next)
    ensures InOrder(done + Mark(open, k), next)
  {
    var before, after := done + open, done + Mark(open, k);
    MarkAll(open, k);
    forall i | 0 <= i < |after|
      ensures after[i].id == before[i].id
      ensures after[i].commitId == if i < |done| then done[i].commitId else Some(k)
    {
    }
    forall i, j | 0 <= i < j < |after|
      ensures Earlier(after[i], after[j])
    {
      assert Earlier(before[i], before[j]);
    }
  }

  lemma MarkedCounts(done: seq<Row>, open: seq<Row>, commits: seq<CommitRow>, c: CommitRow)
    requires AllCommitted(done, |commits|) && AllPending(open) && CountsLinked(done + open, commits)
    requires c.id == |commits| && c.success && c.changeCount == |open|
    ensures CountsLinked(done + Mark(open, |commits|), commits + [c])
  {
    var k := |commits|;
    var marked := Mark(open, k);
    MarkAll(open, k);
    forall i | 0 <= i < k + 1
      ensures |LinkedTo(i, done + marked)| == if i == k then |open| else |LinkedTo(i, done + open)|
    {
      KeepAppend((r: Row) => r.commitId == Some(i), done, marked);
      LinkedSplits(i, done, open);
      if i == k {
        KeepNone((r: Row) => r.commitId == Some(i), done);
        KeepAll((r: Row) => r.commitId == Some(i), marked);
      } else {
        KeepNone((r: Row) => r.commitId == Some(i), marked);
      }
    }
  }

  /** A failed commit is recorded and changes nothing else. */
  lemma CommitFailed(s: State, c: CommitRow)
    requires Tabled(s) && c.id == |s.commits| && !c.success && !c.saved
    ensures Tabled(s.(commits := s.commits + [c]))
  {
    var k := |s.commits|;
    forall i | 0 <= i < |s.rows|
      ensures s.rows[i].commitId != Some(k)
    {
      var done := CommittedOf(s.rows);
      if i < |done| {
        assert s.rows[i] == done[i];
      } else {
        assert s.rows[i] == PendingOf(s.rows)[i - |done|];
      }
    }
    KeepNone((r: Row) => r.commitId == Some(k), s.rows);
  }

  lemma NewRowsInOrder(rows: seq<Row>, next: nat, section: string, cs: seq<Cmd>)
    requires InOrder(rows, next)
    ensures InOrder(rows + NewRows(next, section, cs), next + |cs|)
  {
    var added := NewRows(next, section, cs);
    var all := rows + added;
    forall i | 0 <= i < |all|
      ensures i < |rows| ==> all[i] == rows[i]
      ensures i >= |rows| ==> all[i].id == next + (i - |rows|) && all[i].commitId.None?
    {
    }
  }

  lemma SubmitTabled(s: State, ts: seq<Target>, section: string, cs: seq<Cmd>)
    requires Tabled(s)
    ensures
      var s' := s.(rows := Unaffected(ts, s.rows) + NewRows(s.nextRow, section, cs), nextRow := s.nextRow + |cs|);
      && Tabled(s') && CommittedOf(s'.rows) == CommittedOf(s.rows)
      && PendingOf(s'.rows) == Unaffected(ts, PendingOf(s.rows)) + NewRows(s.nextRow, section, cs)
  {
    hide Run, ClearedByAny, InOrder, LinkedTo, CmdsOf;
    var done, open := CommittedOf(s.rows), PendingOf(s.rows);
    var p := (r: Row) => r.status.Committed? || !ClearedByAny(ts, r);
    var added := NewRows(s.nextRow, section, cs);
    Filtered(s, p);
    var kept := Keep(p, open);
    assert done + kept + added == done + (kept + added);
    NewRowsInOrder(done + kept, s.nextRow, section, cs);
    assert AllPending(kept + added);
    PendingChange(s, kept + added, s.nextRow + |cs|);
    Splits(done, kept + added, |s.commits|);
  }

  lemma DiscardTabled(s: State, p: Row -> bool)
    requires Tabled(s) && forall r: Row | r.status.Committed? :: p(r)
    ensures Tabled(s.(rows := Keep(p, s.rows))) && CommittedOf(Keep(p, s.rows)) == CommittedOf(s.rows)
    ensures PendingOf(Keep(p, s.rows)) == Keep(p, PendingOf(s.rows))
  {
    hide Run, InOrder, LinkedTo, CmdsOf, CountsLinked;
    var done, open := CommittedOf(s.rows), PendingOf(s.rows);
    Filtered(s, p);
    PendingChange(s, Keep(p, open), s.nextRow);
    Splits(done, Keep(p, open), |s.commits|);
  }

  lemma DiscardAllTabled(s: State)
    requires Tabled(s)
    ensures Tabled(s.(rows := CommittedOf(s.rows)))
    ensures CommittedOf(CommittedOf(s.rows)) == CommittedOf(s.rows) && PendingOf(CommittedOf(s.rows)) == []
  {
    DiscardTabled(s, (r: Row) => r.status.Committed?);
    KeepNone((r: Row) => r.status.Committed?, PendingOf(s.rows));
  }

  /** A commit that the device takes, given the rows pending and the configuration it is fired at. */
  predicate Takes(s: State, req: Request) {
    && req.Commit? && req.reply.Accepts? && PendingOf(s.rows) != []
    && Run(DEVICE, s.live, CmdsOf(PendingOf(s.rows))).Applied?
  }

  /** Every request keeps the two tables in agreement, and only a commit that the device takes changes the ledger. */
  lemma NextTabled(s: State, req: Request)
    requires Tabled(s)
    ensures Tabled(Next(s, req)) && CommittedOf(s.rows) <= CommittedOf(Next(s, req).rows)
    ensures |s.commits| <= |Next(s, req).commits| && s.nextRow <= Next(s, req).nextRow && Next(s, req).v13 == s.v13
    ensures !Takes(s, req) ==> CommittedOf(Next(s, req).rows) == CommittedOf(s.rows) && Next(s, req).live == s.live
  {
    hide Run, Stage, Tabled, Unaffected, NewRows, CommittedOf, PendingOf, Keep, Mark;
    match req
    case Submit(form) =>
      var staged := Stage(s.live, s.v13, form);
      if staged.Staged? {
        SubmitTabled(s, staged.targets, SectionOf(staged.targets[0]), staged.cmds);
      }
    case DiscardOne(id) => DiscardTabled(s, (r: Row) => r.id != id || r.status.Committed?);
    case DiscardAll => DiscardAllTabled(s);
    case Commit(reply) =>
      if PendingOf(s.rows) != [] && !reply.Unreachable? {
        var c := Next(s, req).commits[|s.commits|];
        if Takes(s, req) {
          MarkTabled(s, c, Next(s, req).live);
        } else {
          CommitFailed(s, c);
        }
      }
  }

  /**
   Every request keeps the ledger sound, and the committed rows of before stay, unaltered, at the head of the
   committed rows of after.
   */
  lemma NextSound(initial: Slot, s: State, req: Request)
    requires Sound(initial, s)
    ensures Sound(initial, Next(s, req)) && CommittedOf(s.rows) <= CommittedOf(Next(s, req).rows)
  {
    hide Run, Next, Tabled, CommittedOf, PendingOf;
    NextTabled(s, req);
    if Takes(s, req) {
      CommitApplied(initial, s, req.reply.saved);
    }
  }

  /** The state before the first request: an empty table over whatever the device runs. */
  predicate Fresh(initial: Slot, s: State) {
    s.rows == [] && s.commits == [] && s.live == initial
  }

  lemma FreshSound(initial: Slot, s: State)
    requires Fresh(initial, s)
    ensures Sound(initial, s)
  {
  }

  /** Over every run the ledger is sound and only grows. */
  lemma {:induction false} RunsSound(initial: Slot, s: State, reqs: seq<Request>)
    requires Sound(initial, s)
    ensures Sound(initial, RunAll(s, reqs)) && CommittedOf(s.rows) <= CommittedOf(RunAll(s, reqs).rows)
    decreases reqs
  {
    if reqs != [] {
      NextSound(initial, s, reqs[0]);
      RunsSound(initial, Next(s, reqs[0]), reqs[1..]);
    }
  }

  /**
   What one commit records. Without pending rows, or when the device cannot be reached, nothing. Otherwise one more
   commit, which succeeds exactly when the device takes the batch, counts the pending rows, and is saved exactly when
   the device then also saves; a refused one leaves rows and configuration as they were.
   */
  lemma CommitRecorded(s: State, reply: Reply)
    ensures PendingOf(s.rows) == [] || reply.Unreachable? ==> Next(s, Commit(reply)) == s
    ensures PendingOf(s.rows) != [] && !reply.Unreachable? ==>
              var after := Next(s, Commit(reply));
              && |after.commits| == |s.commits| + 1 && after.commits[..|s.commits|] == s.commits
              && var c := after.commits[|s.commits|];
                 && c.id == |s.commits| && c.changeCount == |PendingOf(s.rows)|
                 && (c.success <==> reply.Accepts? && Run(DEVICE, s.live, CmdsOf(PendingOf(s.rows))).Applied?)
                 && (c.saved <==> c.success && reply == Accepts(true))
                 && (!c.success ==> after.rows == s.rows && after.live == s.live)
                 && (c.success ==> Run(DEVICE, s.live, CmdsOf(PendingOf(s.rows))) == Applied(after.live))
  {
    hide PendingOf, Run, CmdsOf, Mark;
  }
}
