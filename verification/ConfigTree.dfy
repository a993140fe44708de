/**
 The device's running configuration as the JSON tree `showConfig` returns, and the meaning of
 the `set` / `delete` commands the backend fires at it.
 */
module ConfigTree {
  import opened Options

  type Path = seq<string>

  /** One configured node. A valueless leaf is an empty `Obj`. */
  datatype Node = Obj(kids: map<string, Node>) | Str(text: string) | Arr(items: seq<string>) | Num(n: int)

  /** What stands at a path: nothing, or a node. */
  type Slot = Option<Node>

  /** What the device accepts below a node: the position decides whether a word is a key or a value. */
  datatype Schema =
    | Leaf                                // one value, replaced by `set`
    | Multi                               // several values, each set and deleted on its own
    | Branch(kids: map<string, Schema>)   // fixed keys; no keys at all for a valueless leaf
    | Tag(each: Schema)                   // keys chosen by the operator

  datatype Op = Set | Delete
  datatype Cmd = Cmd(op: Op, path: Path)
  datatype Outcome = Rejected | Applied(slot: Slot)

  // ── reading ────────────────────────────────────────────────────────────────

  function Kids(cur: Slot): map<string, Node> {
    if cur.Some? && cur.value.Obj? then cur.value.kids else map[]
  }

  function Kid(cur: Slot, key: string): Slot {
    if key in Kids(cur) then Some(Kids(cur)[key]) else None
  }

  function Get(cur: Slot, path: Path): Slot
    decreases path
  {
    if path == [] then cur else Get(Kid(cur, path[0]), path[1..])
  }

  lemma KeyOf(cur: Slot, key: string)
    ensures Get(cur, [key]) == Kid(cur, key)
  {
    assert [key][1..] == [];
  }

  function SchemaOf(s: Schema, key: string): Option<Schema> {
    match s
    case Branch(kids) => if key in kids then Some(kids[key]) else None
    case Tag(each) => Some(each)
    case _ => None
  }

  function SchemaAt(s: Schema, path: Path): Option<Schema>
    decreases path
  {
    if path == [] then Some(s)
    else
      var child := SchemaOf(s, path[0]);
      if child.None? then None else SchemaAt(child.value, path[1..])
  }

  /** Nothing but objects (or nothing at all) on the way to `path`. */
  predicate Walkable(cur: Slot, path: Path)
    decreases path
  {
    path == [] || cur.None? || (cur.value.Obj? && Walkable(Kid(cur, path[0]), path[1..]))
  }

  /** Neither path leads to or through the other. */
  predicate Apart(p: Path, q: Path) {
    p != [] && q != [] && (p[0] != q[0] || Apart(p[1..], q[1..]))
  }

  /** Paths are apart exactly when neither is a beginning of the other. */
  lemma {:induction false} ApartIff(p: Path, q: Path)
    ensures Apart(p, q) <==> !(p <= q) && !(q <= p)
    decreases p
  {
    if p != [] && q != [] && p[0] == q[0] {
      ApartIff(p[1..], q[1..]);
      assert p <= q <==> p[1..] <= q[1..] by { FirstSame(p, q); }
      assert q <= p <==> q[1..] <= p[1..] by { FirstSame(q, p); }
    }
  }

  lemma FirstSame(p: Path, q: Path)
    requires p != [] && q != [] && p[0] == q[0]
    ensures p <= q <==> p[1..] <= q[1..]
  {
    assert p == [p[0]] + p[1..] && q == [q[0]] + q[1..];
    if p[1..] <= q[1..] {
      assert q == [q[0]] + p[1..] + q[1..][|p[1..]|..];
    }
    if p <= q {
      assert q[1..] == p[1..] + q[|p|..];
    }
  }

  /** A path can be walked exactly when every node on its way, before its end, is an object. */
  lemma {:induction false} WalkableIff(cur: Slot, path: Path)
    ensures Walkable(cur, path) <==> forall n | 0 <= n < |path| :: Get(cur, path[..n]).Some? ==> Get(cur, path[..n]).value.Obj?
    decreases path
  {
    if path != [] {
      var rest := path[1..];
      WalkableIff(Kid(cur, path[0]), rest);
      assert path[..0] == [] && Get(cur, []) == cur;
      forall n | 0 <= n < |rest|
        ensures Get(cur, path[..n + 1]) == Get(Kid(cur, path[0]), rest[..n])
        ensures Kid(cur, path[0]).None? ==> Get(Kid(cur, path[0]), rest[..n]).None?
      {
        assert path[..n + 1][1..] == rest[..n];
        GetNone(rest[..n]);
      }
      assert forall n | 0 < n < |path| :: Get(cur, path[..n]) == Get(Kid(cur, path[0]), rest[..n - 1]);
    }
  }

  // ── multi-valued leaves ────────────────────────────────────────────────────

  /** The values of a multi-valued leaf, rendered as a string for one and an array for several. */
  function Values(cur: Slot): seq<string> {
    match cur
    case Some(Str(v)) => [v]
    case Some(Arr(vs)) => vs
    case _ => []
  }

  function Rendered(values: seq<string>): Slot {
    if values == [] then None else if |values| == 1 then Some(Str(values[0])) else Some(Arr(values))
  }

  function Without(values: seq<string>, v: string): (r: seq<string>)
    ensures forall x :: x in r <==> x in values && x != v
  {
    if values == [] then []
    else if values[0] == v then Without(values[1..], v)
    else [values[0]] + Without(values[1..], v)
  }

  // ── commands ───────────────────────────────────────────────────────────────

  /** `set`: creates what is missing on the way; refused where the schema or a value is in the way. */
  function SetAt(s: Schema, cur: Slot, path: Path): Option<Node>
    decreases path
  {
    match s
    case Leaf => if |path| == 1 then Some(Str(path[0])) else None
    case Multi =>
      if |path| != 1 then None
      else if path[0] in Values(cur) then Some(cur.value)
      else Some(Rendered(Values(cur) + [path[0]]).value)
    case _ =>
      if path == [] then Some(if cur.None? then Obj(map[]) else cur.value)
      else if SchemaOf(s, path[0]).None? || (cur.Some? && !cur.value.Obj?) then None
      else
        var below := SetAt(SchemaOf(s, path[0]).value, Kid(cur, path[0]), path[1..]);
        if below.None? then None else Some(Obj(Kids(cur)[path[0] := below.value]))
  }

  /** `delete`: removes the node (or one value); an absent path is left alone, emptied parents stay. */
  function DeleteAt(s: Schema, cur: Slot, path: Path): Slot
    decreases path
  {
    if cur.None? || path == [] then None
    else
      match s
      case Leaf => if cur.value == Str(path[0]) && |path| == 1 then None else cur
      case Multi =>
        if |path| != 1 || path[0] !in Values(cur) then cur else Rendered(Without(Values(cur), path[0]))
      case _ =>
        if SchemaOf(s, path[0]).None? || path[0] !in Kids(cur) then cur
        else
          var below := DeleteAt(SchemaOf(s, path[0]).value, Kid(cur, path[0]), path[1..]);
          if below.None? then Some(Obj(Kids(cur) - {path[0]}))
          else Some(Obj(Kids(cur)[path[0] := below.value]))
  }

  function Step(s: Schema, cur: Slot, c: Cmd): Outcome {
    match c.op
    case Set => (var n := SetAt(s, cur, c.path); if n.None? then Rejected else Applied(n))
    case Delete => Applied(DeleteAt(s, cur, c.path))
  }

  /** A batch is applied as a whole or refused as a whole. */
  function Run(s: Schema, cur: Slot, cs: seq<Cmd>): Outcome
    decreases cs
  {
    if cs == [] then Applied(cur)
    else
      var first := Step(s, cur, cs[0]);
      if first.Rejected? then Rejected else Run(s, first.slot, cs[1..])
  }

  /** Every command of the batch changes the tree when its turn comes. */
  predicate Effective(s: Schema, cur: Slot, cs: seq<Cmd>)
    decreases cs
  {
    cs == [] ||
    (var first := Step(s, cur, cs[0]);
     first.Applied? && first.slot != cur && Effective(s, first.slot, cs[1..]))
  }

  /** In an effective batch each command changes the tree that the ones before it leave. */
  lemma {:induction false} EachChanges(s: Schema, cur: Slot, cs: seq<Cmd>, i: nat)
    requires Effective(s, cur, cs) && i < |cs|
    ensures
      var before := Run(s, cur, cs[..i]);
      && before.Applied? && Step(s, before.slot, cs[i]).Applied?
      && Step(s, before.slot, cs[i]).slot != before.slot
    decreases cs
  {
    if i > 0 {
      assert cs[..i][1..] == cs[1..][..i - 1];
      EachChanges(s, Step(s, cur, cs[0]).slot, cs[1..], i - 1);
    }
  }

  lemma {:induction false} RunAppend(s: Schema, cur: Slot, a: seq<Cmd>, b: seq<Cmd>)
    ensures Run(s, cur, a + b) ==
            (var first := Run(s, cur, a); if first.Rejected? then Rejected else Run(s, first.slot, b))
    ensures Effective(s, cur, a) && Run(s, cur, a).Applied? && Effective(s, Run(s, cur, a).slot, b) ==>
              Effective(s, cur, a + b)
    decreases a
  {
    if a == [] {
      assert a + b == b;
    } else {
      assert (a + b)[1..] == a[1..] + b;
      if Step(s, cur, a[0]).Applied? {
        RunAppend(s, Step(s, cur, a[0]).slot, a[1..], b);
      }
    }
  }

  lemma RunOne(s: Schema, cur: Slot, c: Cmd)
    ensures Run(s, cur, [c]) == Step(s, cur, c)
    ensures Effective(s, cur, [c]) <==> Step(s, cur, c).Applied? && Step(s, cur, c).slot != cur
  {
    assert [c][1..] == [];
  }

  // ── overwriting one place ──────────────────────────────────────────────────

  /** The tree with `x` standing at `path`; removing an absent node creates nothing. */
  function Put(cur: Slot, path: Path, x: Slot): (r: Slot)
    ensures x.Some? ==> r.Some?
    ensures cur.None? && x.None? ==> r.None?
    decreases path
  {
    if path == [] then x
    else
      var below := Put(Kid(cur, path[0]), path[1..], x);
      if below.Some? then Some(Obj(Kids(cur)[path[0] := below.value]))
      else if cur.None? then None
      else Some(Obj(Kids(cur) - {path[0]}))
  }

  lemma {:induction false} GetNone(p: Path)
    ensures Get(None, p) == None && Walkable(None, p)
    decreases p
  {
    if p != [] {
      GetNone(p[1..]);
    }
  }

  lemma {:induction false} GetPut(cur: Slot, p: Path, x: Slot)
    ensures Get(Put(cur, p, x), p) == x
    ensures Walkable(Put(cur, p, x), p)
    decreases p
  {
    if p != [] {
      GetPut(Kid(cur, p[0]), p[1..], x);
    }
  }

  lemma {:induction false} GetPutApart(cur: Slot, p: Path, x: Slot, q: Path)
    requires Apart(p, q)
    ensures Get(Put(cur, p, x), q) == Get(cur, q)
    ensures Walkable(cur, q) ==> Walkable(Put(cur, p, x), q)
    decreases p
  {
    if p[0] == q[0] {
      GetPutApart(Kid(cur, p[0]), p[1..], x, q[1..]);
    }
  }

  lemma {:induction false} ApartSymmetric(p: Path, q: Path)
    requires Apart(p, q)
    ensures Apart(q, p)
  {
    if p[0] == q[0] {
      ApartSymmetric(p[1..], q[1..]);
    }
  }

  lemma PutKid(cur: Slot, p: Path, x: Slot, k: string)
    requires p != []
    ensures Kid(Put(cur, p, x), k) == if k == p[0] then Put(Kid(cur, k), p[1..], x) else Kid(cur, k)
    ensures Put(cur, p, x).None? <==> cur.None? && Put(Kid(cur, p[0]), p[1..], x).None?
    ensures Put(cur, p, x).Some? ==> Put(cur, p, x).value.Obj?
  {
  }

  lemma SameKids(a: Slot, b: Slot)
    requires a.Some? && b.Some? && a.value.Obj? && b.value.Obj?
    requires forall k :: Kid(a, k) == Kid(b, k)
    ensures a == b
  {
    forall k
      ensures k in Kids(a) <==> k in Kids(b)
      ensures k in Kids(a) ==> Kids(a)[k] == Kids(b)[k]
    {
      assert Kid(a, k) == Kid(b, k);
    }
    assert Kids(a) == Kids(b);
  }

  lemma {:induction false} PutAgain(cur: Slot, p: Path, x: Slot, n: Node)
    ensures Put(Put(cur, p, x), p, Some(n)) == Put(cur, p, Some(n))
    decreases p
  {
    if p != [] {
      PutAgain(Kid(cur, p[0]), p[1..], x, n);
      assert Kids(Put(Put(cur, p, x), p, Some(n))) == Kids(Put(cur, p, Some(n)));
    }
  }

  /** Overwrites of places apart from each other commute. */
  lemma {:induction false} PutCommutes(cur: Slot, p: Path, x: Slot, q: Path, y: Slot)
    requires Apart(p, q)
    ensures Put(Put(cur, p, x), q, y) == Put(Put(cur, q, y), p, x)
    decreases p
  {
    var a, b := Put(Put(cur, p, x), q, y), Put(Put(cur, q, y), p, x);
    if p[0] == q[0] {
      PutCommutes(Kid(cur, p[0]), p[1..], x, q[1..], y);
    }
    forall k
      ensures Kid(a, k) == Kid(b, k)
    {
      PutKid(cur, p, x, k);
      PutKid(cur, q, y, k);
      PutKid(Put(cur, p, x), q, y, k);
      PutKid(Put(cur, q, y), p, x, k);
    }
    PutKid(cur, p, x, q[0]);
    PutKid(cur, q, y, p[0]);
    PutKid(Put(cur, p, x), q, y, q[0]);
    PutKid(Put(cur, q, y), p, x, p[0]);
    if a.Some? && b.Some? {
      SameKids(a, b);
    }
  }

  lemma {:induction false} GetSplit(cur: Slot, p: Path, q: Path)
    ensures Get(cur, p + q) == Get(Get(cur, p), q)
    ensures Walkable(cur, p + q) <==> Walkable(cur, p) && Walkable(Get(cur, p), q)
    decreases p
  {
    if p == [] {
      assert p + q == q;
    } else {
      assert (p + q)[1..] == p[1..] + q;
      GetSplit(Kid(cur, p[0]), p[1..], q);
    }
  }

  lemma {:induction false} SchemaSplit(s: Schema, p: Path, q: Path)
    requires SchemaAt(s, p).Some?
    ensures SchemaAt(s, p + q) == SchemaAt(SchemaAt(s, p).value, q)
    decreases p
  {
    if p == [] {
      assert p + q == q;
    } else {
      assert (p + q)[1..] == p[1..] + q;
      SchemaSplit(SchemaOf(s, p[0]).value, p[1..], q);
    }
  }

  // ── commands below one place ───────────────────────────────────────────────

  function Below(p: Path, cs: seq<Cmd>): seq<Cmd> {
    seq(|cs|, i requires 0 <= i < |cs| => Cmd(cs[i].op, p + cs[i].path))
  }

  /** A command below `p` acts on the node at `p` and puts the result back. */
  lemma {:induction false} StepBelow(s: Schema, cur: Slot, p: Path, c: Cmd)
    requires SchemaAt(s, p).Some? && Walkable(cur, p)
    ensures Step(s, cur, Cmd(c.op, p + c.path)) ==
            (var inner := Step(SchemaAt(s, p).value, Get(cur, p), c);
             if inner.Rejected? then Rejected else Applied(Put(cur, p, inner.slot)))
    decreases p
  {
    if p == [] {
      assert p + c.path == c.path;
    } else {
      assert (p + c.path)[1..] == p[1..] + c.path;
      StepBelow(SchemaOf(s, p[0]).value, Kid(cur, p[0]), p[1..], c);
      assert p[0] !in Kids(cur) ==> Kids(cur) - {p[0]} == Kids(cur);
      assert Get(None, p) == None by { GetNone(p); }
    }
  }

  lemma {:induction false} RunBelow(s: Schema, cur: Slot, p: Path, cs: seq<Cmd>)
    requires SchemaAt(s, p).Some? && Walkable(cur, p)
    ensures
      var inner := Run(SchemaAt(s, p).value, Get(cur, p), cs);
      var outer := Run(s, cur, Below(p, cs));
      && (outer.Applied? <==> inner.Applied?)
      && (inner.Applied? ==>
            && Get(outer.slot, p) == inner.slot
            && (forall q | Apart(p, q) ::
                  Get(outer.slot, q) == Get(cur, q) && (Walkable(cur, q) ==> Walkable(outer.slot, q)))
            && (cur.Some? && p != [] ==> outer.slot.Some?)
            && (cs != [] && inner.slot.Some? ==> outer.slot == Put(cur, p, inner.slot)))
    ensures Effective(SchemaAt(s, p).value, Get(cur, p), cs) ==> Effective(s, cur, Below(p, cs))
    decreases cs
  {
    if cs == [] {
    } else {
      StepBelow(s, cur, p, cs[0]);
      assert Below(p, cs)[1..] == Below(p, cs[1..]);
      var inner := Step(SchemaAt(s, p).value, Get(cur, p), cs[0]);
      if inner.Applied? {
        var next := Put(cur, p, inner.slot);
        GetPut(cur, p, inner.slot);
        RunBelow(s, next, p, cs[1..]);
        var last := Run(SchemaAt(s, p).value, inner.slot, cs[1..]);
        if last.Applied? {
          forall q | Apart(p, q)
            ensures Get(Run(s, cur, Below(p, cs)).slot, q) == Get(cur, q)
            ensures Walkable(cur, q) ==> Walkable(Run(s, cur, Below(p, cs)).slot, q)
          {
            GetPutApart(cur, p, inner.slot, q);
          }
          if last.slot.Some? {
            PutAgain(cur, p, inner.slot, last.slot.value);
          }
        }
      }
    }
  }
}
