/**
 A diff as a list of edits, each confined to its own place, and what the commands of one edit
 do to the node standing there.
 */
module Edits {
  import opened Options
  import opened ConfigTree

  /** Commands relative to the place `at`. */
  datatype Edit = Edit(at: Path, cmds: seq<Cmd>)

  function Flat(edits: seq<Edit>): seq<Cmd> {
    if edits == [] then [] else Below(edits[0].at, edits[0].cmds) + Flat(edits[1..])
  }

  /** The edits are confined to places apart from each other that the tree can be walked to. */
  ghost predicate Fits(s: Schema, cur: Slot, edits: seq<Edit>) {
    && (forall i | 0 <= i < |edits| :: SchemaAt(s, edits[i].at).Some? && Walkable(cur, edits[i].at))
    && (forall i, j | 0 <= i < j < |edits| :: Apart(edits[i].at, edits[j].at))
  }

  /** What an edit alone makes of its place. */
  function After(s: Schema, cur: Slot, e: Edit): Outcome
    requires SchemaAt(s, e.at).Some?
  {
    Run(SchemaAt(s, e.at).value, Get(cur, e.at), e.cmds)
  }

  ghost predicate ApartFromAll(q: Path, edits: seq<Edit>) {
    forall i | 0 <= i < |edits| :: Apart(edits[i].at, q)
  }

  /** What the first edit leaves for the others. */
  lemma FirstEdit(s: Schema, cur: Slot, edits: seq<Edit>)
    requires Fits(s, cur, edits) && edits != [] && After(s, cur, edits[0]).Applied?
    ensures
      var first, rest := Run(s, cur, Below(edits[0].at, edits[0].cmds)), edits[1..];
      && first.Applied? && Fits(s, first.slot, rest) && ApartFromAll(edits[0].at, rest)
      && (forall i | 0 <= i < |rest| ::
            rest[i] == edits[i + 1] && Get(first.slot, rest[i].at) == Get(cur, rest[i].at) &&
            After(s, first.slot, rest[i]) == After(s, cur, edits[i + 1]))
  {
    hide Run, Get, Walkable, Effective;
    var e, rest := edits[0], edits[1..];
    RunBelow(s, cur, e.at, e.cmds);
    forall i | 0 <= i < |rest|
      ensures Apart(rest[i].at, e.at) && Apart(e.at, rest[i].at)
    {
      assert rest[i] == edits[i + 1];
      ApartSymmetric(e.at, rest[i].at);
    }
  }

  /** Edits at separate places do not disturb each other: each place ends as its own edit leaves it. */
  lemma {:induction false} RunEdits(s: Schema, cur: Slot, edits: seq<Edit>)
    requires Fits(s, cur, edits)
    ensures
      var r := Run(s, cur, Flat(edits));
      && (r.Applied? <==> forall i | 0 <= i < |edits| :: After(s, cur, edits[i]).Applied?)
      && (r.Applied? ==>
            && (forall i | 0 <= i < |edits| :: Get(r.slot, edits[i].at) == After(s, cur, edits[i]).slot)
            && (forall q | ApartFromAll(q, edits) ::
                  Get(r.slot, q) == Get(cur, q) && (Walkable(cur, q) ==> Walkable(r.slot, q)))
            && (cur.Some? && (forall i | 0 <= i < |edits| :: edits[i].at != []) ==> r.slot.Some?))
    ensures (forall i | 0 <= i < |edits| ::
               Effective(SchemaAt(s, edits[i].at).value, Get(cur, edits[i].at), edits[i].cmds)) &&
            Run(s, cur, Flat(edits)).Applied? ==>
              Effective(s, cur, Flat(edits))
    decreases edits
  {
    if edits != [] {
      hide Run, Get, Walkable, Effective, SchemaAt;
      var e, rest := edits[0], edits[1..];
      var head := Below(e.at, e.cmds);
      RunBelow(s, cur, e.at, e.cmds);
      RunAppend(s, cur, head, Flat(rest));
      if After(s, cur, e).Applied? {
        FirstEdit(s, cur, edits);
        var next := Run(s, cur, head).slot;
        RunEdits(s, next, rest);
        if Run(s, next, Flat(rest)).Applied? {
          var last := Run(s, next, Flat(rest)).slot;
          forall i | 0 <= i < |edits|
            ensures Get(last, edits[i].at) == After(s, cur, edits[i]).slot
          {
            if i > 0 {
              assert edits[i] == rest[i - 1];
            }
          }
          forall q | ApartFromAll(q, edits)
            ensures Get(last, q) == Get(cur, q) && (Walkable(cur, q) ==> Walkable(last, q))
          {
            assert Apart(edits[0].at, q);
            assert ApartFromAll(q, rest);
          }
        }
      } else {
        assert !After(s, cur, edits[0]).Applied?;
      }
    }
  }

  // ── building the command list ──────────────────────────────────────────────

  /** Whether the list holds a `set`, which creates every node on its way. */
  predicate AnySet(cs: seq<Cmd>) {
    exists i | 0 <= i < |cs| :: cs[i].op == Set
  }

  /** The edits of a record, then a bare `set` of the record's node if it is new and nothing created it. */
  function RecordCmds(isNew: bool, edits: seq<Edit>): seq<Cmd> {
    Flat(edits) + if isNew && !AnySet(Flat(edits)) then [Cmd(Set, [])] else []
  }

  lemma {:induction false} FlatEmpty(edits: seq<Edit>)
    requires forall i | 0 <= i < |edits| :: edits[i].cmds == []
    ensures Flat(edits) == []
    decreases edits
  {
    if edits != [] {
      FlatEmpty(edits[1..]);
    }
  }

  /** The edits of one record: the record exists afterwards and each of its places is as its edit leaves it. */
  lemma RecordRuns(s: Schema, cur: Slot, isNew: bool, edits: seq<Edit>)
    requires s.Branch? || s.Tag?
    requires Fits(s, cur, edits) && forall i | 0 <= i < |edits| :: edits[i].at != []
    requires forall i | 0 <= i < |edits| :: After(s, cur, edits[i]).Applied?
    requires forall i | 0 <= i < |edits| && edits[i].cmds != [] :: isNew ==> After(s, cur, edits[i]).slot.Some?
    requires isNew || cur.Some?
    ensures
      var r := Run(s, cur, RecordCmds(isNew, edits));
      && r.Applied? && r.slot.Some?
      && (forall i | 0 <= i < |edits| :: Get(r.slot, edits[i].at) == After(s, cur, edits[i]).slot)
      && (forall q | q != [] && ApartFromAll(q, edits) ::
            Get(r.slot, q) == Get(cur, q) && (Walkable(cur, q) ==> Walkable(r.slot, q)))
    ensures isNew == cur.None? &&
            (forall i | 0 <= i < |edits| ::
               Effective(SchemaAt(s, edits[i].at).value, Get(cur, edits[i].at), edits[i].cmds)) ==>
              Effective(s, cur, RecordCmds(isNew, edits))
  {
    RunEdits(s, cur, edits);
    var mid := Run(s, cur, Flat(edits)).slot;
    if cur.None? {
      if i :| 0 <= i < |edits| && edits[i].cmds != [] {
        GetNone(edits[i].at);
        assert mid.Some?;
      } else {
        FlatEmpty(edits);
      }
    }
    if isNew && !AnySet(Flat(edits)) {
      RunAppend(s, cur, Flat(edits), [Cmd(Set, [])]);
      assert [Cmd(Set, [])][1..] == [];
      var last := Run(s, cur, RecordCmds(isNew, edits)).slot;
      forall q | q != []
        ensures Get(last, q) == Get(mid, q) && (Walkable(mid, q) ==> Walkable(last, q))
      {
        GetNone(q);
        GetNone(q[1..]);
      }
    } else {
      assert RecordCmds(isNew, edits) == Flat(edits);
    }
  }

  // ── rebuilding a record elsewhere ──────────────────────────────────────────

  /** A move: the record at `former` is dropped, the one at `base` is built by `cs`. */
  function MoveCmds(former: Path, base: Path, cs: seq<Cmd>): seq<Cmd> {
    [Cmd(Delete, former)] + Below(base, cs)
  }

  lemma RunMove(s: Schema, cur: Slot, former: Path, base: Path, cs: seq<Cmd>)
    requires Apart(former, base) && Walkable(cur, former) && Walkable(cur, base)
    requires SchemaAt(s, former).Some? && SchemaAt(s, base).Some?
    ensures
      var inner := Run(SchemaAt(s, base).value, Get(cur, base), cs);
      var r := Run(s, cur, MoveCmds(former, base, cs));
      && (r.Applied? <==> inner.Applied?)
      && (r.Applied? ==>
            && Get(r.slot, base) == inner.slot
            && Get(r.slot, former) == None
            && (forall q | Apart(base, q) && Apart(former, q) ::
                  Get(r.slot, q) == Get(cur, q) && (Walkable(cur, q) ==> Walkable(r.slot, q))))
    ensures Get(cur, former).Some? && Effective(SchemaAt(s, base).value, Get(cur, base), cs) &&
            Run(SchemaAt(s, base).value, Get(cur, base), cs).Applied? ==>
              Effective(s, cur, MoveCmds(former, base, cs))
  {
    assert former + [] == former;
    StepBelow(s, cur, former, Cmd(Delete, []));
    RunOne(s, cur, Cmd(Delete, former));
    var mid := Put(cur, former, None);
    GetPut(cur, former, None);
    GetPutApart(cur, former, None, base);
    ApartSymmetric(former, base);
    RunBelow(s, mid, base, cs);
    RunAppend(s, cur, [Cmd(Delete, former)], Below(base, cs));
    forall q | Apart(former, q)
      ensures Get(mid, q) == Get(cur, q) && (Walkable(cur, q) ==> Walkable(mid, q))
    {
      GetPutApart(cur, former, None, q);
    }
  }

  /** A command list under construction: `head`, then the edits done so far below `base`. */
  ghost predicate Progress(base: Path, head: seq<Cmd>, done: seq<Edit>, out: seq<Cmd>, created: bool) {
    out == head + Below(base, Flat(done)) && created == AnySet(Flat(done))
  }

  lemma {:induction false} FlatAppend(edits: seq<Edit>, e: Edit)
    ensures Flat(edits + [e]) == Flat(edits) + Below(e.at, e.cmds)
    decreases edits
  {
    if edits == [] {
      assert [e][1..] == [] && edits + [e] == [e];
    } else {
      assert (edits + [e])[1..] == edits[1..] + [e];
      FlatAppend(edits[1..], e);
    }
  }

  lemma AnySetAppend(a: seq<Cmd>, b: seq<Cmd>)
    ensures AnySet(a + b) <==> AnySet(a) || AnySet(b)
  {
    if i :| 0 <= i < |a| && a[i].op == Set {
      assert (a + b)[i].op == Set;
    }
    if i :| 0 <= i < |b| && b[i].op == Set {
      assert (a + b)[|a| + i].op == Set;
    }
  }

  lemma BelowBelow(p: Path, q: Path, cs: seq<Cmd>)
    ensures Below(p, Below(q, cs)) == Below(p + q, cs)
  {
    forall i | 0 <= i < |cs|
      ensures p + (q + cs[i].path) == p + q + cs[i].path
    {
    }
  }

  lemma GrowList(base: Path, done: seq<Edit>, e: Edit)
    ensures Below(base, Flat(done + [e])) == Below(base, Flat(done)) + Below(base + e.at, e.cmds)
  {
    FlatAppend(done, e);
    BelowBelow(base, e.at, e.cmds);
    assert Below(base, Flat(done) + Below(e.at, e.cmds)) ==
           Below(base, Flat(done)) + Below(base, Below(e.at, e.cmds));
  }

  lemma Grow(base: Path, head: seq<Cmd>, done: seq<Edit>, out: seq<Cmd>, created: bool, e: Edit)
    requires Progress(base, head, done, out, created)
    ensures Progress(base, head, done + [e], out + Below(base + e.at, e.cmds), created || AnySet(e.cmds))
  {
    GrowList(base, done, e);
    FlatAppend(done, e);
    AnySetAppend(Flat(done), Below(e.at, e.cmds));
    assert AnySet(Below(e.at, e.cmds)) <==> AnySet(e.cmds) by {
      if i :| 0 <= i < |e.cmds| && e.cmds[i].op == Set {
        assert Below(e.at, e.cmds)[i].op == Set;
      }
    }
  }

  lemma Started(base: Path, head: seq<Cmd>)
    ensures Progress(base, head, [], head, false)
  {
  }

  /** Once every edit is in, the list holds the record's commands. */
  lemma Finished(base: Path, head: seq<Cmd>, edits: seq<Edit>, out: seq<Cmd>, created: bool, isNew: bool)
    requires Progress(base, head, edits, out, created)
    ensures out + (if isNew && !created then [Cmd(Set, base)] else []) == head + Below(base, RecordCmds(isNew, edits))
  {
    assert base + [] == base;
    assert Below(base, Flat(edits) + [Cmd(Set, [])]) == Below(base, Flat(edits)) + [Cmd(Set, base)];
    assert Flat(edits) + [] == Flat(edits);
  }
}
