/**
 Batches whose commands belong to separate places: what the batch does to one place is what the place's own
 commands do to it, and lists for separate places may be fired in either order.
 */
module Batches {
  import opened Options
  import opened ConfigTree

  function Relative(p: Path, c: Cmd): Cmd
    requires p <= c.path
  {
    Cmd(c.op, c.path[|p|..])
  }

  /** The commands at or below `p`, relative to it. */
  function Concerning(p: Path, cs: seq<Cmd>): seq<Cmd> {
    if cs == [] then []
    else (if p <= cs[0].path then [Relative(p, cs[0])] else []) + Concerning(p, cs[1..])
  }

  lemma {:induction false} ApartNotPrefix(p: Path, q: Path)
    requires Apart(p, q)
    ensures !(p <= q) && !(q <= p)
    decreases p
  {
    if p[0] == q[0] {
      ApartNotPrefix(p[1..], q[1..]);
    }
  }

  lemma {:induction false} ApartExtends(p: Path, q: Path, p': Path, q': Path)
    requires Apart(p, q) && p <= p' && q <= q'
    ensures Apart(p', q')
    decreases p
  {
    if p[0] == q[0] {
      ApartExtends(p[1..], q[1..], p'[1..], q'[1..]);
    }
  }

  // ── opening a node ─────────────────────────────────────────────────────────

  const EMPTY: Slot := Some(Obj(map[]))

  lemma TailPrefix(q: Path, p: Path)
    requires q != [] && p != [] && q[0] == p[0]
    ensures q[1..] <= p[1..] ==> q <= p
  {
    assert q == [q[0]] + q[1..] && p == [p[0]] + p[1..];
  }

  /** Creating an empty node where there was none is invisible below and beside it. */
  lemma {:induction false} PutEmpty(cur: Slot, p: Path, q: Path)
    requires Walkable(cur, p) && Get(cur, p).None? && !(q <= p)
    ensures Get(Put(cur, p, EMPTY), q) == Get(cur, q)
    ensures Walkable(cur, q) ==> Walkable(Put(cur, p, EMPTY), q)
    decreases p
  {
    if p == [] {
      GetNone(q);
      GetNone(q[1..]);
    } else if p[0] == q[0] {
      TailPrefix(q, p);
      PutEmpty(Kid(cur, p[0]), p[1..], q[1..]);
    }
  }

  /** Overwriting below a place keeps the way to it. */
  lemma {:induction false} PutKeepsWay(cur: Slot, p: Path, x: Slot, q: Path)
    requires q <= p
    ensures Walkable(Put(cur, p, x), q)
    decreases q
  {
    if q != [] {
      PutKeepsWay(Kid(cur, p[0]), p[1..], x, q[1..]);
    }
  }

  predicate Inner(s: Schema, p: Path) {
    SchemaAt(s, p).Some? && (SchemaAt(s, p).value.Branch? || SchemaAt(s, p).value.Tag?)
  }

  /** A bare `set` of an inner node is always accepted, and creates it only if it is absent. */
  lemma StepOpens(s: Schema, cur: Slot, p: Path)
    requires Inner(s, p) && Walkable(cur, p)
    ensures Step(s, cur, Cmd(Set, p)) == Applied(if Get(cur, p).None? then Put(cur, p, EMPTY) else cur)
  {
    assert p + [] == p;
    StepBelow(s, cur, p, Cmd(Set, []));
    if Get(cur, p).Some? {
      PutSame(cur, p);
    }
  }

  lemma {:induction false} PutSame(cur: Slot, p: Path)
    requires Walkable(cur, p) && Get(cur, p).Some?
    ensures Put(cur, p, Get(cur, p)) == cur
    decreases p
  {
    if p != [] {
      if cur.None? {
        GetNone(p);
      } else {
        if Kid(cur, p[0]).None? {
          GetNone(p[1..]);
        }
        PutSame(Kid(cur, p[0]), p[1..]);
        assert Kids(cur)[p[0] := Kids(cur)[p[0]]] == Kids(cur);
      }
    }
  }

  lemma {:induction false} PutKeepsSome(cur: Slot, p: Path, x: Slot, q: Path)
    requires q < p && Get(cur, q).Some?
    ensures Get(Put(cur, p, x), q).Some?
    decreases p
  {
    if q == [] {
    } else {
      assert q[0] == p[0];
      assert q[1..] < p[1..];
      if cur.None? {
        GetNone(q);
      }
      PutKeepsSome(Kid(cur, p[0]), p[1..], x, q[1..]);
    }
  }

  // ── one place at a time ────────────────────────────────────────────────────

  /** `q` is at none of the places and below none, though it may be on the way to some. */
  ghost predicate Above(feet: set<Path>, q: Path) {
    forall f | f in feet :: Apart(f, q) || q < f
  }

  /** A bare `set` of an inner node on the way to the places, or beside them. */
  ghost predicate Opening(s: Schema, feet: set<Path>, c: Cmd) {
    c.op == Set && Inner(s, c.path) && Above(feet, c.path)
  }

  /** The places are apart, known to the schema and reachable. */
  ghost predicate Grounded(s: Schema, cur: Slot, feet: set<Path>) {
    && (forall f | f in feet :: SchemaAt(s, f).Some? && Walkable(cur, f))
    && (forall f, g | f in feet && g in feet && f != g :: Apart(f, g))
  }

  /** Every command is at one of the places, or only opens a reachable node. */
  ghost predicate Housed(s: Schema, cur: Slot, feet: set<Path>, cs: seq<Cmd>) {
    forall c | c in cs ::
      (exists f :: f in feet && f <= c.path) || (Opening(s, feet, c) && Walkable(cur, c.path))
  }

  /** `q` is beside every place, and not at or above a node that the batch opens. */
  ghost predicate Beside(s: Schema, feet: set<Path>, cs: seq<Cmd>, q: Path) {
    (forall f | f in feet :: Apart(f, q)) && (forall c | c in cs && Opening(s, feet, c) :: !(q <= c.path))
  }

  /** What one step at a place, or an opening, does to everything else. */
  lemma StepHoused(s: Schema, cur: Slot, c: Cmd, feet: set<Path>, f: Path)
    requires Grounded(s, cur, feet) && f in feet && f <= c.path
    ensures
      var inner := Step(SchemaAt(s, f).value, Get(cur, f), Relative(f, c));
      Step(s, cur, c) == (if inner.Rejected? then Rejected else Applied(Put(cur, f, inner.slot)))
    ensures forall g | g in feet && g <= c.path :: g == f
    ensures SchemaAt(s, f).Some?
  {
    assert f + c.path[|f|..] == c.path;
    StepBelow(s, cur, f, Relative(f, c));
    forall g | g in feet && g <= c.path
      ensures g == f
    {
      if g != f {
        ApartExtends(f, g, c.path, c.path);
        ApartNotPrefix(c.path, c.path);
      }
    }
  }

  lemma AfterPut(s: Schema, cur: Slot, cs: seq<Cmd>, feet: set<Path>, f: Path, x: Slot)
    requires Grounded(s, cur, feet) && f in feet && Housed(s, cur, feet, cs)
    ensures
      var next := Put(cur, f, x);
      && Grounded(s, next, feet) && Housed(s, next, feet, cs)
      && Get(next, f) == x
      && (forall g | g in feet && g != f :: Get(next, g) == Get(cur, g))
      && (forall q | Beside(s, feet, cs, q) :: Get(next, q) == Get(cur, q))
      && (forall q | Above(feet, q) && Get(cur, q).Some? :: Get(next, q).Some?)
  {
    var next := Put(cur, f, x);
    GetPut(cur, f, x);
    forall g | Apart(f, g)
      ensures Get(next, g) == Get(cur, g) && (Walkable(cur, g) ==> Walkable(next, g))
    {
      GetPutApart(cur, f, x, g);
    }
    forall q | Above(feet, q)
      ensures Walkable(cur, q) ==> Walkable(next, q)
      ensures Get(cur, q).Some? ==> Get(next, q).Some?
    {
      if q < f {
        PutKeepsWay(cur, f, x, q);
        if Get(cur, q).Some? {
          PutKeepsSome(cur, f, x, q);
        }
      }
    }
  }

  lemma AfterOpening(s: Schema, cur: Slot, cs: seq<Cmd>, feet: set<Path>, c: Cmd)
    requires Grounded(s, cur, feet) && Housed(s, cur, feet, cs) && Opening(s, feet, c) && Walkable(cur, c.path)
    requires c in cs
    ensures
      var r := Step(s, cur, c);
      && r.Applied?
      && Grounded(s, r.slot, feet) && Housed(s, r.slot, feet, cs)
      && (forall g | g in feet :: Get(r.slot, g) == Get(cur, g))
      && (forall q | Beside(s, feet, cs, q) :: Get(r.slot, q) == Get(cur, q))
      && (forall q | Above(feet, q) && Get(cur, q).Some? :: Get(r.slot, q).Some?)
      && Get(r.slot, c.path).Some?
  {
    StepOpens(s, cur, c.path);
    if Get(cur, c.path).None? {
      var next := Put(cur, c.path, EMPTY);
      GetPut(cur, c.path, EMPTY);
      forall q | !(q <= c.path)
        ensures Get(next, q) == Get(cur, q) && (Walkable(cur, q) ==> Walkable(next, q))
      {
        PutEmpty(cur, c.path, q);
      }
      forall q | q <= c.path
        ensures Walkable(next, q)
        ensures Get(cur, q).Some? ==> Get(next, q).Some?
      {
        PutKeepsWay(cur, c.path, EMPTY, q);
        if Get(cur, q).Some? {
          assert q != c.path;
          PutKeepsSome(cur, c.path, EMPTY, q);
        }
      }
      forall f | f in feet
        ensures !(f <= c.path)
      {
        if Apart(f, c.path) {
          ApartNotPrefix(f, c.path);
        }
      }
    }
  }

  /**
   A batch is accepted exactly when each place accepts its own commands; then each place is as its own commands
   leave it, every opened node exists, and whatever is beside all of them is untouched.
   */
  lemma {:induction false} RunHoused(s: Schema, cur: Slot, cs: seq<Cmd>, feet: set<Path>)
    requires Grounded(s, cur, feet) && Housed(s, cur, feet, cs)
    ensures
      var r := Run(s, cur, cs);
      && (r.Applied? <==> forall f | f in feet :: Run(SchemaAt(s, f).value, Get(cur, f), Concerning(f, cs)).Applied?)
      && (r.Applied? ==>
            && (forall f | f in feet ::
                  Get(r.slot, f) == Run(SchemaAt(s, f).value, Get(cur, f), Concerning(f, cs)).slot)
            && (forall q | Beside(s, feet, cs, q) :: Get(r.slot, q) == Get(cur, q))
            && (forall q | Above(feet, q) && Get(cur, q).Some? :: Get(r.slot, q).Some?)
            && (forall c | c in cs && Opening(s, feet, c) :: Get(r.slot, c.path).Some?))
    decreases cs
  {
    RunHousedFrom(s, cur, cs, feet, cs);
  }

  lemma {:induction false} RunHousedFrom(s: Schema, cur: Slot, cs: seq<Cmd>, feet: set<Path>, all: seq<Cmd>)
    requires Grounded(s, cur, feet) && Housed(s, cur, feet, all) && forall c | c in cs :: c in all
    ensures
      var r := Run(s, cur, cs);
      && (r.Applied? <==> forall f | f in feet :: Run(SchemaAt(s, f).value, Get(cur, f), Concerning(f, cs)).Applied?)
      && (r.Applied? ==>
            && (forall f | f in feet ::
                  Get(r.slot, f) == Run(SchemaAt(s, f).value, Get(cur, f), Concerning(f, cs)).slot)
            && (forall q | Beside(s, feet, all, q) :: Get(r.slot, q) == Get(cur, q))
            && (forall q | Above(feet, q) && Get(cur, q).Some? :: Get(r.slot, q).Some?)
            && (forall c | c in cs && Opening(s, feet, c) :: Get(r.slot, c.path).Some?))
    decreases cs
  {
    hide Grounded, Housed, Beside, Above, Concerning, Get, Put;
    if cs == [] {
      NothingConcerns();
    } else {
      var c, rest := cs[0], cs[1..];
      assert c in all;
      forall g | g in feet
        ensures Concerning(g, cs) == if g <= c.path then [Relative(g, c)] + Concerning(g, rest) else Concerning(g, rest)
      {
        ConcernCons(g, cs);
      }
      if f :| f in feet && f <= c.path {
        StepHoused(s, cur, c, feet, f);
        var sub, here := SchemaAt(s, f).value, Get(cur, f);
        var inner := Step(sub, here, Relative(f, c));
        RunFirst(sub, here, Relative(f, c), Concerning(f, rest));
        NotOpening(s, feet, c, f);
        if inner.Applied? {
          AfterPut(s, cur, all, feet, f, inner.slot);
          RunHousedFrom(s, Put(cur, f, inner.slot), rest, feet, all);
        }
      } else {
        HouseOf(s, cur, feet, all, c);
        AfterOpening(s, cur, all, feet, c);
        RunHousedFrom(s, Step(s, cur, c).slot, rest, feet, all);
      }
    }
  }

  lemma NothingConcerns()
    ensures forall f :: Concerning(f, []) == []
  {
  }

  lemma ConcernCons(f: Path, cs: seq<Cmd>)
    requires cs != []
    ensures Concerning(f, cs) ==
            if f <= cs[0].path then [Relative(f, cs[0])] + Concerning(f, cs[1..]) else Concerning(f, cs[1..])
  {
  }

  lemma RunFirst(s: Schema, cur: Slot, c: Cmd, rest: seq<Cmd>)
    ensures Run(s, cur, [c] + rest) ==
            (var first := Step(s, cur, c); if first.Rejected? then Rejected else Run(s, first.slot, rest))
  {
    assert ([c] + rest)[1..] == rest;
  }

  lemma HouseOf(s: Schema, cur: Slot, feet: set<Path>, all: seq<Cmd>, c: Cmd)
    requires Housed(s, cur, feet, all) && c in all
    ensures (exists f :: f in feet && f <= c.path) || (Opening(s, feet, c) && Walkable(cur, c.path))
  {
  }

  lemma NotOpening(s: Schema, feet: set<Path>, c: Cmd, f: Path)
    requires f in feet && f <= c.path
    ensures !Opening(s, feet, c)
  {
    if Apart(f, c.path) {
      ApartNotPrefix(f, c.path);
    }
  }
}
