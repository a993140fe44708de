/** The `config_changes` and `config_commits` tables of one router, updated in place by the handlers. */
module ReviewTable {
  import opened Options
  import opened ConfigTree
  import opened DeviceSchema
  import opened ChangeReview
  import opened ReviewLedger
  import opened ReviewTargets

  class Table {
    var rows: seq<Row>
    var commits: seq<CommitRow>
    var nextRow: nat
    var live: Slot
    const v13: bool

    function View(): State
      reads this
    {
      State(rows, commits, nextRow, live, v13)
    }

    constructor (live: Slot, v13: bool)
      ensures View() == State([], [], 0, live, v13)
    {
      rows, commits, nextRow, this.live, this.v13 := [], [], 0, live, v13;
    }

    /** One `DELETE` per target; committed rows stay. */
    method DeleteTargets(ts: seq<Target>)
      modifies `rows
      ensures rows == Unaffected(ts, old(rows))
    {
      ghost var was := rows;
      KeepAll((r: Row) => r.status.Committed? || !ClearedByAny([], r), was);
      assert ts[..0] == [];
      for i := 0 to |ts|
        invariant rows == Unaffected(ts[..i], was)
      {
        var t := ts[i];
        rows := Keep((r: Row) => r.status.Committed? || !Clears(t, r.section, r.cmd.path), rows);
        OneMoreTarget(ts[..i], t, was);
        assert ts[..i] + [t] == ts[..i + 1];
      }
      assert ts[..|ts|] == ts;
    }

    /** Persists staged commands one row at a time, and returns the new rows. */
    method InsertChanges(section: string, cs: seq<Cmd>) returns (inserted: seq<Row>)
      modifies `rows, `nextRow
      ensures inserted == NewRows(old(nextRow), section, cs)
      ensures rows == old(rows) + inserted && nextRow == old(nextRow) + |cs|
    {
      inserted := [];
      for i := 0 to |cs|
        invariant nextRow == old(nextRow) + i
        invariant inserted == NewRows(old(nextRow), section, cs[..i])
        invariant rows == old(rows) + inserted
      {
        var row := Row(nextRow, cs[i], section, Pending, None);
        rows, nextRow := rows + [row], nextRow + 1;
        inserted := inserted + [row];
        assert NewRows(old(nextRow), section, cs[..i + 1]) == NewRows(old(nextRow), section, cs[..i]) + [row];
      }
      assert cs[..|cs|] == cs;
    }

    /** The staging handlers: refuse the form, or replace its targets' pending rows by its commands. */
    method SubmitForm(form: Form) returns (inserted: Option<seq<Row>>)
      modifies `rows, `nextRow
      ensures View() == Next(old(View()), Submit(form))
      ensures inserted.Some? <==> Stage(live, v13, form).Staged?
      ensures inserted.Some? ==> rows == Unaffected(Stage(live, v13, form).targets, old(rows)) + inserted.value
    {
      hide Stage, Clears, AllPlaced;
      var staged := Stage(live, v13, form);
      if staged.Refused? {
        return None;
      }
      StagedPlaced(live, v13, form);
      DeleteTargets(staged.targets);
      var added := InsertChanges(SectionOf(staged.targets[0]), staged.cmds);
      return Some(added);
    }

    /** Deletes one pending row, and reports whether there was one. */
    method Discard(id: nat) returns (found: bool)
      modifies `rows
      ensures View() == Next(old(View()), DiscardOne(id))
      ensures found <==> exists r :: r in old(rows) && r.id == id && r.status.Pending?
      ensures CommittedOf(rows) == CommittedOf(old(rows)) && PendingOf(rows) == OtherThan(id, PendingOf(old(rows)))
      ensures forall r | r in rows :: r.id == id ==> r.status.Committed?
      ensures !found ==> rows == old(rows)
    {
      hide Stage;
      DiscardedOne(id, rows);
      found := exists r | r in rows :: r.id == id && r.status.Pending?;
      rows := Keep((r: Row) => r.id != id || r.status.Committed?, rows);
    }

    /** Deletes the pending rows, and nothing else. */
    method DiscardPending()
      modifies `rows
      ensures View() == Next(old(View()), DiscardAll)
      ensures PendingOf(rows) == [] && CommittedOf(rows) == CommittedOf(old(rows))
      ensures forall r :: r in rows <==> r in old(rows) && r.status.Committed?
    {
      hide Stage;
      DiscardedAll(rows);
      rows := CommittedOf(rows);
    }

    /** The `UPDATE` after a successful batch, row by row. */
    method MarkPending(commitId: nat)
      modifies `rows
      ensures rows == Mark(old(rows), commitId)
    {
      var marked: seq<Row> := [];
      for i := 0 to |rows|
        invariant rows == old(rows)
        invariant marked == Mark(rows[..i], commitId)
      {
        var row := rows[i];
        marked := marked + [if row.status.Pending? then row.(status := Committed, commitId := Some(commitId)) else row];
        MarkOneMore(rows[..i], row, commitId);
        assert rows[..i] + [row] == rows[..i + 1];
      }
      assert rows[..|rows|] == rows;
      rows := marked;
    }

    /** Fires all pending rows as one batch, records the commit, and marks the rows when the device applied it. */
    method CommitPending(reply: Reply) returns (recorded: Option<CommitRow>)
      modifies this
      ensures View() == Next(old(View()), Commit(reply))
      ensures recorded.Some? ==> commits == old(commits) + [recorded.value] && recorded.value.changeCount > 0
      ensures recorded.None? ==> View() == old(View())
    {
      var pending := PendingOf(rows);
      if pending == [] || reply.Unreachable? {
        return None;
      }
      var outcome := Run(DEVICE, live, CmdsOf(pending));
      var applied := reply.Accepts? && outcome.Applied?;
      var commit := CommitRow(|commits|, applied, |pending|, applied && reply.saved);
      commits := commits + [commit];
      if applied {
        live := outcome.slot;
        MarkPending(commit.id);
      }
      return Some(commit);
    }
  }

  lemma {:induction false} KeepTwice(p: Row -> bool, q: Row -> bool, both: Row -> bool, rows: seq<Row>)
    requires forall r | r in rows :: both(r) == (p(r) && q(r))
    ensures Keep(q, Keep(p, rows)) == Keep(both, rows)
    decreases rows
  {
    if rows != [] {
      var r := rows[0];
      KeepTwice(p, q, both, rows[1..]);
      KeepAppend(q, if p(r) then [r] else [], Keep(p, rows[1..]));
      assert Keep(q, [r]) == (if q(r) then [r] else []) + Keep(q, []);
    }
  }

  function OtherThan(id: nat, rows: seq<Row>): seq<Row> {
    Keep((r: Row) => r.id != id, rows)
  }

  /** Discarding one row keeps the committed rows and, in their order, all pending rows but that one. */
  lemma DiscardedOne(id: nat, rows: seq<Row>)
    ensures
      var kept := Keep((r: Row) => r.id != id || r.status.Committed?, rows);
      && CommittedOf(kept) == CommittedOf(rows) && PendingOf(kept) == OtherThan(id, PendingOf(rows))
      && (forall r | r in kept :: r.id == id ==> r.status.Committed?)
      && ((forall r | r in rows :: r.id == id ==> r.status.Committed?) ==> kept == rows)
  {
    var p := (r: Row) => r.id != id || r.status.Committed?;
    KeepTwice(p, (r: Row) => r.status.Committed?, (r: Row) => r.status.Committed?, rows);
    KeepTwice(p, (r: Row) => r.status.Pending?, (r: Row) => r.id != id && r.status.Pending?, rows);
    KeepTwice((r: Row) => r.status.Pending?, (r: Row) => r.id != id, (r: Row) => r.id != id && r.status.Pending?, rows);
    KeepIn(p, rows);
    if forall r | r in rows :: r.id == id ==> r.status.Committed? {
      KeepAll(p, rows);
    }
  }

  lemma DiscardedAll(rows: seq<Row>)
    ensures PendingOf(CommittedOf(rows)) == [] && CommittedOf(CommittedOf(rows)) == CommittedOf(rows)
    ensures forall r :: r in CommittedOf(rows) <==> r in rows && r.status.Committed?
  {
    KeepIn((r: Row) => r.status.Committed?, rows);
    var done := CommittedOf(rows);
    forall i | 0 <= i < |done|
      ensures done[i].status.Committed?
    {
      assert done[i] in done;
    }
    KeepNone((r: Row) => r.status.Pending?, done);
    KeepAll((r: Row) => r.status.Committed?, done);
  }

  /** Clearing target after target is the same as clearing all of them at once. */
  lemma OneMoreTarget(ts: seq<Target>, t: Target, rows: seq<Row>)
    ensures Keep((r: Row) => r.status.Committed? || !Clears(t, r.section, r.cmd.path), Unaffected(ts, rows)) ==
            Unaffected(ts + [t], rows)
  {
    hide Clears;
    KeepTwice((r: Row) => r.status.Committed? || !ClearedByAny(ts, r),
              (r: Row) => r.status.Committed? || !Clears(t, r.section, r.cmd.path),
              (r: Row) => r.status.Committed? || !ClearedByAny(ts + [t], r), rows);
  }

  lemma {:induction false} MarkOneMore(rows: seq<Row>, row: Row, k: nat)
    ensures Mark(rows + [row], k) == Mark(rows, k) + Mark([row], k)
    decreases rows
  {
    if rows == [] {
      assert [] + [row] == [row];
    } else {
      assert (rows + [row])[1..] == rows[1..] + [row];
      MarkOneMore(rows[1..], row, k);
    }
  }
}
