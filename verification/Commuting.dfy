/** Two command lists for separate places give the same tree in either order. */
module Commuting {
  import opened Options
  import opened ConfigTree
  import opened Batches

  function Then(s: Schema, before: Outcome, c: Cmd): Outcome {
    if before.Rejected? then Rejected else Step(s, before.slot, c)
  }

  lemma {:induction false} PutNothing(cur: Slot, p: Path)
    requires Walkable(cur, p) && Get(cur, p).None?
    ensures Put(cur, p, None) == cur
    decreases p
  {
    if p != [] && cur.Some? {
      PutNothing(Kid(cur, p[0]), p[1..]);
      if Kid(cur, p[0]).Some? {
        assert Kids(cur)[p[0] := Kids(cur)[p[0]]] == Kids(cur);
      } else {
        assert Kids(cur) - {p[0]} == Kids(cur);
      }
    }
  }

  /** A node put below a freshly opened one is put as if nothing had been opened. */
  lemma {:induction false} PutThroughEmpty(cur: Slot, p: Path, q: Path, n: Node)
    requires p < q && Walkable(cur, p) && Get(cur, p).None?
    ensures Put(Put(cur, p, EMPTY), q, Some(n)) == Put(cur, q, Some(n))
    decreases p
  {
    if p != [] {
      assert p[1..] < q[1..] && p[0] == q[0];
      if cur.None? {
        GetNone(p[1..]);
      }
      PutThroughEmpty(Kid(cur, p[0]), p[1..], q[1..], n);
      assert Kids(Put(Put(cur, p, EMPTY), q, Some(n))) == Kids(Put(cur, q, Some(n)));
    }
  }

  /** Two commands at separate places. */
  lemma SwapPlaces(s: Schema, cur: Slot, c: Cmd, f: Path, d: Cmd, g: Path)
    requires f <= c.path && g <= d.path && Apart(f, g)
    requires SchemaAt(s, f).Some? && SchemaAt(s, g).Some? && Walkable(cur, f) && Walkable(cur, g)
    ensures Then(s, Step(s, cur, c), d) == Then(s, Step(s, cur, d), c)
  {
    assert f + c.path[|f|..] == c.path && g + d.path[|g|..] == d.path;
    StepBelow(s, cur, f, Relative(f, c));
    StepBelow(s, cur, g, Relative(g, d));
    var x, y := Step(SchemaAt(s, f).value, Get(cur, f), Relative(f, c)), Step(SchemaAt(s, g).value, Get(cur, g), Relative(g, d));
    ApartSymmetric(f, g);
    if x.Applied? {
      GetPutApart(cur, f, x.slot, g);
      StepBelow(s, Put(cur, f, x.slot), g, Relative(g, d));
    }
    if y.Applied? {
      GetPutApart(cur, g, y.slot, f);
      StepBelow(s, Put(cur, g, y.slot), f, Relative(f, c));
    }
    if x.Applied? && y.Applied? {
      PutCommutes(cur, f, x.slot, g, y.slot);
    }
  }

  /** A command at a place and a bare `set` on the way to it. */
  lemma SwapOpening(s: Schema, cur: Slot, c: Cmd, d: Cmd, g: Path)
    requires c.op == Set && Inner(s, c.path) && Walkable(cur, c.path) && c.path < g
    requires g <= d.path && SchemaAt(s, g).Some? && Walkable(cur, g)
    ensures Then(s, Step(s, cur, c), d) == Then(s, Step(s, cur, d), c)
  {
    var p := c.path;
    assert g + d.path[|g|..] == d.path;
    StepOpens(s, cur, p);
    StepBelow(s, cur, g, Relative(g, d));
    var y := Step(SchemaAt(s, g).value, Get(cur, g), Relative(g, d));
    if y.Applied? {
      PutKeepsWay(cur, g, y.slot, p);
      StepOpens(s, Put(cur, g, y.slot), p);
    }
    if Get(cur, p).None? {
      PutEmpty(cur, p, g);
      StepBelow(s, Put(cur, p, EMPTY), g, Relative(g, d));
      BelowNothing(cur, p, g);
      if y.Applied? && y.slot.Some? {
        PutThroughEmpty(cur, p, g, y.slot.value);
        GetPut(cur, g, y.slot);
        SomeAbove(Put(cur, g, y.slot), p, g);
      } else if y.Applied? {
        PutNothing(cur, g);
        PutNothing(Put(cur, p, EMPTY), g);
      }
    } else if y.Applied? {
      PutKeepsSome(cur, g, y.slot, p);
    }
  }

  lemma {:induction false} BelowNothing(cur: Slot, p: Path, q: Path)
    requires p < q && Get(cur, p).None?
    ensures Get(cur, q).None?
    decreases p
  {
    if p == [] {
      GetNone(q);
    } else {
      assert p[1..] < q[1..] && p[0] == q[0];
      BelowNothing(Kid(cur, p[0]), p[1..], q[1..]);
    }
  }

  lemma SomeAbove(cur: Slot, p: Path, q: Path)
    requires p < q && Get(cur, q).Some?
    ensures Get(cur, p).Some?
  {
    if Get(cur, p).None? {
      BelowNothing(cur, p, q);
    }
  }

  /** `d` is at a place of its own; each command of `cs` is at another place, or opens a node on the way to `d`. */
  ghost predicate Passes(s: Schema, feet: set<Path>, cs: seq<Cmd>, d: Cmd, g: Path) {
    && g in feet && g <= d.path
    && forall c | c in cs :: (exists f :: f in feet && f != g && f <= c.path) || Opening(s, feet, c)
  }

  lemma SwapStep(s: Schema, cur: Slot, feet: set<Path>, cs: seq<Cmd>, c: Cmd, d: Cmd, g: Path)
    requires Grounded(s, cur, feet) && Housed(s, cur, feet, cs) && Passes(s, feet, cs, d, g) && c in cs
    ensures Then(s, Step(s, cur, c), d) == Then(s, Step(s, cur, d), c)
  {
    if f :| f in feet && f != g && f <= c.path {
      SwapPlaces(s, cur, c, f, d, g);
    } else {
      HouseOf(s, cur, feet, cs, c);
      if h :| h in feet && h <= c.path {
        NotOpening(s, feet, c, h);
        assert false;
      }
      if c.path < g {
        SwapOpening(s, cur, c, d, g);
      } else {
        ApartSymmetric(g, c.path);
        SwapPlaces(s, cur, c, c.path, d, g);
      }
    }
  }

  /** After one more command the places are as reachable as before. */
  lemma StaysGrounded(s: Schema, cur: Slot, feet: set<Path>, all: seq<Cmd>, c: Cmd)
    requires Grounded(s, cur, feet) && Housed(s, cur, feet, all) && c in all && Step(s, cur, c).Applied?
    ensures Grounded(s, Step(s, cur, c).slot, feet) && Housed(s, Step(s, cur, c).slot, feet, all)
  {
    HouseOf(s, cur, feet, all, c);
    if f :| f in feet && f <= c.path {
      StepHoused(s, cur, c, feet, f);
      AfterPut(s, cur, all, feet, f, Step(SchemaAt(s, f).value, Get(cur, f), Relative(f, c)).slot);
    } else {
      AfterOpening(s, cur, all, feet, c);
    }
  }

  /** One command moves through a whole list. */
  lemma {:induction false} MoveThrough(s: Schema, cur: Slot, feet: set<Path>, all: seq<Cmd>, cs: seq<Cmd>, d: Cmd, g: Path)
    requires Grounded(s, cur, feet) && Housed(s, cur, feet, all) && Passes(s, feet, cs, d, g)
    requires d in all && forall c | c in cs :: c in all
    ensures Then(s, Run(s, cur, cs), d) ==
            (var first := Step(s, cur, d); if first.Rejected? then Rejected else Run(s, first.slot, cs))
    decreases cs
  {
    if cs != [] {
      var c, rest := cs[0], cs[1..];
      assert c in cs && c in all;
      assert Housed(s, cur, feet, cs);
      SwapStep(s, cur, feet, cs, c, d, g);
      if Step(s, cur, c).Applied? {
        StaysGrounded(s, cur, feet, all, c);
        MoveThrough(s, Step(s, cur, c).slot, feet, all, rest, d, g);
      }
    }
  }

  /** Two whole lists. */
  lemma {:induction false} RunsCommute(s: Schema, cur: Slot, feet: set<Path>, all: seq<Cmd>, cs: seq<Cmd>, ds: seq<Cmd>)
    requires Grounded(s, cur, feet) && Housed(s, cur, feet, all)
    requires (forall c | c in cs :: c in all) && (forall d | d in ds :: d in all)
    requires forall d | d in ds :: exists g :: Passes(s, feet, cs, d, g)
    ensures Run(s, cur, cs + ds) == Run(s, cur, ds + cs)
    decreases ds
  {
    hide Grounded, Housed, Passes;
    if ds == [] {
      assert cs + ds == cs && ds + cs == cs;
    } else {
      var d, rest := ds[0], ds[1..];
      assert d in ds && d in all;
      var g :| Passes(s, feet, cs, d, g);
      MoveThrough(s, cur, feet, all, cs, d, g);
      RunAppend(s, cur, cs, ds);
      assert ds + cs == [d] + (rest + cs) && ds == [d] + rest;
      RunFirst(s, cur, d, rest + cs);
      var mid := Run(s, cur, cs);
      if mid.Applied? {
        RunFirst(s, mid.slot, d, rest);
      }
      if Step(s, cur, d).Applied? {
        StaysGrounded(s, cur, feet, all, d);
        var next := Step(s, cur, d).slot;
        forall e | e in rest
          ensures exists g :: Passes(s, feet, cs, e, g)
        {
          assert e in ds;
        }
        RunsCommute(s, next, feet, all, cs, rest);
        RunAppend(s, next, cs, rest);
      }
    }
  }
}
