/** Overlap resolution after a move or a resize: one tile stays put, the others sink until they are clear. */
module GridResolve {
  import opened Options
  import opened GridLayout
  import opened Sorting

  predicate UniqueIds(tiles: seq<Tile>) {
    forall i, j | 0 <= i < |tiles| && 0 <= j < |tiles| && i != j :: tiles[i].id != tiles[j].id
  }

  /** The first tile with an id. */
  function FindTile(tiles: seq<Tile>, id: string): (r: Option<Tile>)
    ensures r.Some? ==> r.value in tiles && r.value.id == id
    ensures r.None? ==> forall t | t in tiles :: t.id != id
  {
    if tiles == [] then None
    else if tiles[0].id == id then Some(tiles[0])
    else FindTile(tiles[1..], id)
  }

  function Others(tiles: seq<Tile>, id: string): (rest: seq<Tile>)
    ensures forall t :: t in rest <==> t in tiles && t.id != id
  {
    if tiles == [] then []
    else (if tiles[0].id != id then [tiles[0]] else []) + Others(tiles[1..], id)
  }

  predicate TopFirst(a: Tile, b: Tile) {
    a.box.y < b.box.y || (a.box.y == b.box.y && a.box.x <= b.box.x)
  }

  function AtRow(t: Tile, y: int): Tile {
    t.(box := t.box.(y := y))
  }

  /** The tile at the first row from its own on where it is clear. */
  function Settle(placed: seq<Tile>, t: Tile): (r: Tile)
    ensures t.box.y <= r.box.y && r == AtRow(t, r.box.y)
    ensures Clear(placed, r.box)
    ensures forall y | t.box.y <= y < r.box.y :: !Clear(placed, AtRow(t, y).box)
    decreases if Bottom(placed) > t.box.y then Bottom(placed) - t.box.y else 0
  {
    if Clear(placed, t.box) then t
    else
      assert Bottom(placed) > t.box.y by {
        var i :| 0 <= i < |placed| && Collides(placed[i].box, t.box);
      }
      assert forall y :: AtRow(AtRow(t, t.box.y + 1), y) == AtRow(t, y);
      assert AtRow(t, t.box.y) == t;
      Settle(placed, AtRow(t, t.box.y + 1))
  }

  function PlaceAll(placed: seq<Tile>, rest: seq<Tile>): seq<Tile>
    decreases rest
  {
    if rest == [] then placed else PlaceAll(placed + [Settle(placed, rest[0])], rest[1..])
  }

  function StaticFirst(tiles: seq<Tile>, id: string): seq<Tile> {
    if FindTile(tiles, id).Some? then [FindTile(tiles, id).value] else []
  }

  /** The order in which tiles are placed: the static one, then the others from the top. */
  function Order(tiles: seq<Tile>, id: string): seq<Tile> {
    StaticFirst(tiles, id) + Sort(TopFirst, Others(tiles, id))
  }

  function Placed(tiles: seq<Tile>, id: string): seq<Tile> {
    PlaceAll(StaticFirst(tiles, id), Sort(TopFirst, Others(tiles, id)))
  }

  /** The placed tile with the id of `t`. */
  function Look(placed: seq<Tile>, t: Tile): Tile {
    if FindTile(placed, t.id).Some? then FindTile(placed, t.id).value else t
  }

  function Resolve(tiles: seq<Tile>, id: string): (out: seq<Tile>) {
    Map((t: Tile) => Look(Placed(tiles, id), t), tiles)
  }

  /** The same computation step by step; the inner loop ends because a tile that overlaps is above the lowest edge. */
  method ResolveLayout(tiles: seq<Tile>, staticId: string) returns (out: seq<Tile>)
    ensures out == Resolve(tiles, staticId)
  {
    var placed := StaticFirst(tiles, staticId);
    var rest := Sort(TopFirst, Others(tiles, staticId));
    for k := 0 to |rest|
      invariant PlaceAll(placed, rest[k..]) == Placed(tiles, staticId)
    {
      var cur := rest[k];
      while !Clear(placed, cur.box)
        invariant Settle(placed, cur) == Settle(placed, rest[k])
        decreases Bottom(placed) - cur.box.y
      {
        cur := AtRow(cur, cur.box.y + 1);
      }
      placed := placed + [cur];
      assert rest[k..][1..] == rest[k + 1..];
    }
    out := [];
    for k := 0 to |tiles|
      invariant |out| == k && forall i | 0 <= i < k :: out[i] == Look(placed, tiles[i])
    {
      out := out + [Look(placed, tiles[k])];
    }
  }

  // ── placing in order ───────────────────────────────────────────────────────

  /** Tile `j` of the order sits where it first cleared the tiles placed before it. */
  lemma {:induction false} PlaceAllSteps(placed: seq<Tile>, rest: seq<Tile>)
    ensures
      var out := PlaceAll(placed, rest);
      && |out| == |placed| + |rest| && out[..|placed|] == placed
      && (forall j | 0 <= j < |rest| :: out[|placed| + j] == Settle(out[..|placed| + j], rest[j]))
    decreases rest
  {
    hide Settle;
    if rest != [] {
      var more := placed + [Settle(placed, rest[0])];
      PlaceAllSteps(more, rest[1..]);
      var out := PlaceAll(placed, rest);
      assert out[..|more|] == more && out[..|placed|] == more[..|placed|];
      forall j | 0 <= j < |rest|
        ensures out[|placed| + j] == Settle(out[..|placed| + j], rest[j])
      {
        if j == 0 {
          assert out[|placed|] == more[|placed|];
        } else {
          assert out[|more| + (j - 1)] == Settle(out[..|more| + (j - 1)], rest[1..][j - 1]);
        }
      }
    } else {
      assert PlaceAll(placed, rest) == placed;
    }
  }

  lemma {:induction false} InsertUnique(x: Tile, xs: seq<Tile>)
    requires UniqueIds(xs) && forall t | t in xs :: t.id != x.id
    ensures UniqueIds(Insert(TopFirst, x, xs))
    decreases xs
  {
    if xs != [] && !TopFirst(x, xs[0]) {
      var rest := Insert(TopFirst, x, xs[1..]);
      InsertUnique(x, xs[1..]);
      InsertKeeps(TopFirst, x, xs[1..]);
      forall t | t in rest
        ensures t.id != xs[0].id
      {
        assert t in multiset(rest);
        assert t == x || t in xs[1..];
      }
    }
  }

  lemma {:induction false} SortUnique(tiles: seq<Tile>)
    requires UniqueIds(tiles)
    ensures UniqueIds(Sort(TopFirst, tiles))
    decreases tiles
  {
    if tiles != [] {
      SortUnique(tiles[1..]);
      SortKeeps(TopFirst, tiles[1..]);
      InsertUnique(tiles[0], Sort(TopFirst, tiles[1..]));
    }
  }

  lemma {:induction false} OthersUnique(tiles: seq<Tile>, id: string)
    requires UniqueIds(tiles)
    ensures UniqueIds(Others(tiles, id))
    decreases tiles
  {
    if tiles != [] {
      OthersUnique(tiles[1..], id);
    }
  }

  /** The order lists exactly the tiles, each once, the static one first and the others from the top. */
  lemma OrderLists(tiles: seq<Tile>, id: string)
    requires UniqueIds(tiles)
    ensures
      var order, k := Order(tiles, id), |StaticFirst(tiles, id)|;
      && UniqueIds(order)
      && (forall t :: t in order <==> t in tiles)
      && (forall j | 0 <= j < |order| :: order[j].id == id <==> j < k)
      && (forall i, j | k <= i < j < |order| :: TopFirst(order[i], order[j]))
  {
    var rest := Others(tiles, id);
    OthersUnique(tiles, id);
    SortUnique(rest);
    SortKeeps(TopFirst, rest);
    SortSorts(TopFirst, rest);
    var order := Order(tiles, id);
    forall t
      ensures t in order <==> t in tiles
    {
      if t in tiles && t.id == id {
        SameTile(tiles, t, FindTile(tiles, id).value);
      }
    }
  }

  lemma SameTile(tiles: seq<Tile>, t: Tile, u: Tile)
    requires UniqueIds(tiles) && t in tiles && u in tiles && t.id == u.id
    ensures t == u
  {
  }

  /** Every tile of the order is where its id is looked up in the result. */
  lemma ResultOf(tiles: seq<Tile>, id: string, i: nat) returns (j: nat)
    requires UniqueIds(tiles) && i < |tiles|
    ensures |Placed(tiles, id)| == |Order(tiles, id)| && j < |Order(tiles, id)|
    ensures Order(tiles, id)[j] == tiles[i] && Resolve(tiles, id)[i] == Placed(tiles, id)[j]
  {
    hide Settle;
    var order, out := Order(tiles, id), Placed(tiles, id);
    OrderLists(tiles, id);
    OrderSteps(tiles, id);
    assert tiles[i] in order;
    j :| 0 <= j < |order| && order[j] == tiles[i];
    assert out[j].id == tiles[i].id;
    FoundAt(out, j);
  }

  lemma {:induction false} FoundAt(tiles: seq<Tile>, j: nat)
    requires UniqueIds(tiles) && j < |tiles|
    ensures FindTile(tiles, tiles[j].id) == Some(tiles[j])
    decreases j
  {
    if j > 0 {
      assert tiles[1..][j - 1] == tiles[j];
      FoundAt(tiles[1..], j - 1);
    }
  }

  /** The static tile stays; every other tile of the order settles on those before it. */
  lemma OrderSteps(tiles: seq<Tile>, id: string)
    requires UniqueIds(tiles)
    ensures
      var order, out, k := Order(tiles, id), Placed(tiles, id), |StaticFirst(tiles, id)|;
      && |out| == |order| && UniqueIds(out)
      && (forall j | 0 <= j < k :: out[j] == order[j])
      && (forall j | k <= j < |order| :: out[j] == Settle(out[..j], order[j]))
  {
    hide Settle;
    var fixed, rest := StaticFirst(tiles, id), Sort(TopFirst, Others(tiles, id));
    PlaceAllSteps(fixed, rest);
    OrderLists(tiles, id);
    var order, out := Order(tiles, id), Placed(tiles, id);
    forall j | |fixed| <= j < |order|
      ensures out[j] == Settle(out[..j], order[j])
    {
      assert order[j] == rest[j - |fixed|];
    }
    forall j | 0 <= j < |order|
      ensures out[j].id == order[j].id
    {
      if j < |fixed| {
        assert out[j] == out[..|fixed|][j];
      }
    }
    forall j | 0 <= j < |fixed|
      ensures out[j] == order[j]
    {
      assert out[j] == out[..|fixed|][j];
    }
  }

  // ── what resolving promises ────────────────────────────────────────────────

  lemma PlacedDisjoint(tiles: seq<Tile>, id: string)
    requires UniqueIds(tiles)
    ensures Disjoint(Placed(tiles, id))
  {
    hide Settle;
    OrderSteps(tiles, id);
    OrderLists(tiles, id);
    var order, out, k := Order(tiles, id), Placed(tiles, id), |StaticFirst(tiles, id)|;
    forall i, j | 0 <= i < |out| && 0 <= j < |out| && i != j
      ensures !Collides(out[i].box, out[j].box)
    {
      var a, b := if i < j then i else j, if i < j then j else i;
      assert out[b] == Settle(out[..b], order[b]);
      assert out[..b][a] == out[a];
    }
  }

  /**
   For any tiles with distinct ids: the same tiles in the same order, no two overlapping, the static one untouched,
   and every other one changed at most in its row, and only downwards.
   */
  lemma ResolveCorrect(tiles: seq<Tile>, id: string)
    requires UniqueIds(tiles)
    ensures
      var out := Resolve(tiles, id);
      && |out| == |tiles| && Disjoint(out) && UniqueIds(out)
      && (forall i | 0 <= i < |tiles| ::
            && out[i] == AtRow(tiles[i], out[i].box.y) && tiles[i].box.y <= out[i].box.y
            && (tiles[i].id == id ==> out[i] == tiles[i]))
  {
    hide Settle, Order, Placed, StaticFirst, Collides;
    var out := Resolve(tiles, id);
    OrderLists(tiles, id);
    OrderSteps(tiles, id);
    PlacedDisjoint(tiles, id);
    forall i | 0 <= i < |tiles|
      ensures out[i] == AtRow(tiles[i], out[i].box.y) && tiles[i].box.y <= out[i].box.y
      ensures tiles[i].id == id ==> out[i] == tiles[i]
    {
      var j := ResultOf(tiles, id, i);
    }
    forall i, j | 0 <= i < |out| && 0 <= j < |out| && i != j
      ensures !Collides(out[i].box, out[j].box)
    {
      var k := ResultOf(tiles, id, i);
      var l := ResultOf(tiles, id, j);
    }
  }

  // ── minimal disturbance ────────────────────────────────────────────────────

  /** The others do not overlap each other: whatever overlaps does so at the static tile. */
  ghost predicate OthersDisjoint(tiles: seq<Tile>, id: string) {
    && (forall i | 0 <= i < |tiles| :: tiles[i].box.h >= 1)
    && (forall i, j | 0 <= i < |tiles| && 0 <= j < |tiles| && i != j && tiles[i].id != id && tiles[j].id != id ::
          !Collides(tiles[i].box, tiles[j].box))
  }

  predicate ShareColumn(a: Box, b: Box) {
    a.x < b.x + b.w && a.x + a.w > b.x
  }

  /** A chain of pushes from the static tile: each tile of it lies flush under the one before. */
  ghost predicate Chained(order: seq<Tile>, out: seq<Tile>, id: string, j: nat)
    requires |out| == |order| && j < |order|
    decreases j
  {
    || order[j].id == id
    || (order[j].box.y < out[j].box.y && exists i | 0 <= i < j ::
          && Chained(order, out, id, i) && ShareColumn(out[i].box, out[j].box)
          && out[i].box.y + out[i].box.h == out[j].box.y)
  }

  /** A tile that overlaps when it sits one row higher lies flush under what it overlaps. */
  lemma FlushUnder(p: Box, t: Tile, y: int)
    requires Collides(p, AtRow(t, y - 1).box) && !Collides(p, AtRow(t, y).box)
    ensures ShareColumn(p, t.box) && p.y + p.h == y
  {
  }

  /** A tile that moved was pushed by one that is static or moved itself. */
  lemma {:induction false} MovedIsChained(tiles: seq<Tile>, id: string, j: nat)
    requires UniqueIds(tiles) && OthersDisjoint(tiles, id)
    requires j < |Order(tiles, id)| && |Placed(tiles, id)| == |Order(tiles, id)|
    requires Placed(tiles, id)[j].box.y != Order(tiles, id)[j].box.y
    ensures Chained(Order(tiles, id), Placed(tiles, id), id, j)
    decreases j
  {
    hide Settle, Order, Placed, StaticFirst;
    var order, out := Order(tiles, id), Placed(tiles, id);
    OrderLists(tiles, id);
    OrderSteps(tiles, id);
    var t, y := order[j], out[j].box.y;
    assert !Clear(out[..j], AtRow(t, y - 1).box);
    var i :| 0 <= i < j && Collides(out[..j][i].box, AtRow(t, y - 1).box);
    assert out[..j][i] == out[i];
    assert out[j] == AtRow(t, y) && !Collides(out[i].box, AtRow(t, y).box);
    FlushUnder(out[i].box, t, y);
    if order[i].id != id {
      if out[i].box.y == order[i].box.y {
        UnmovedNotAbove(tiles, id, i, j);
      } else {
        MovedIsChained(tiles, id, i);
      }
    }
  }

  /** A tile that kept its row cannot have pushed one that started no higher: the two did not overlap. */
  lemma UnmovedNotAbove(tiles: seq<Tile>, id: string, i: nat, j: nat)
    requires UniqueIds(tiles) && OthersDisjoint(tiles, id) && i < j < |Order(tiles, id)|
    requires Order(tiles, id)[i].id != id
    requires ShareColumn(Order(tiles, id)[i].box, Order(tiles, id)[j].box)
    ensures Order(tiles, id)[i].box.y + Order(tiles, id)[i].box.h <= Order(tiles, id)[j].box.y
  {
    hide Order, StaticFirst;
    var order := Order(tiles, id);
    OrderLists(tiles, id);
    assert order[i] in tiles && order[j] in tiles;
    var a :| 0 <= a < |tiles| && tiles[a] == order[i];
    var b :| 0 <= b < |tiles| && tiles[b] == order[j];
    assert order[i].id != order[j].id && TopFirst(order[i], order[j]);
  }

  /** Tile `i` of the result ends a chain of pushes that starts at the static tile. */
  ghost predicate Pushed(tiles: seq<Tile>, id: string, i: nat)
    requires i < |tiles|
  {
    var order, out := Order(tiles, id), Placed(tiles, id);
    |out| == |order| && exists j | 0 <= j < |order| ::
      order[j] == tiles[i] && out[j] == Resolve(tiles, id)[i] && Chained(order, out, id, j)
  }

  /**
   Minimal disturbance: when tiles overlap only at the static one, a tile moves if and only if its old place overlaps
   the new place of another tile; and then a chain of pushes reaches it from the static tile, each flush under the last.
   */
  lemma MinimalDisturbance(tiles: seq<Tile>, id: string, i: nat)
    requires UniqueIds(tiles) && OthersDisjoint(tiles, id) && i < |tiles|
    ensures
      var out := Resolve(tiles, id);
      && (out[i] != tiles[i] <==>
            tiles[i].id != id && exists k | 0 <= k < |tiles| && k != i :: Collides(out[k].box, tiles[i].box))
      && (out[i] != tiles[i] ==> Pushed(tiles, id, i))
  {
    hide Settle, Order, Placed, StaticFirst, Collides, Resolve;
    var out := Resolve(tiles, id);
    ResolveCorrect(tiles, id);
    var j := ResultOf(tiles, id, i);
    OrderLists(tiles, id);
    OrderSteps(tiles, id);
    if out[i] != tiles[i] {
      MovedIsChained(tiles, id, j);
      MovedWasBlocked(tiles, id, i, j);
    } else {
      forall k | 0 <= k < |tiles| && k != i
        ensures !Collides(out[k].box, tiles[i].box)
      {
        assert !Collides(out[k].box, out[i].box);
      }
    }
  }

  /** What blocks the old place of a moved tile is another tile's new place. */
  lemma MovedWasBlocked(tiles: seq<Tile>, id: string, i: nat, j: nat)
    requires UniqueIds(tiles) && i < |tiles| && Resolve(tiles, id)[i].box.y > tiles[i].box.y
    requires |Placed(tiles, id)| == |Order(tiles, id)| && j < |Order(tiles, id)|
    requires Order(tiles, id)[j] == tiles[i] && Resolve(tiles, id)[i] == Placed(tiles, id)[j]
    ensures exists k | 0 <= k < |tiles| && k != i :: Collides(Resolve(tiles, id)[k].box, tiles[i].box)
  {
    hide Settle, Order, Placed, StaticFirst, Collides, Resolve;
    var order, placed, out := Order(tiles, id), Placed(tiles, id), Resolve(tiles, id);
    OrderLists(tiles, id);
    OrderSteps(tiles, id);
    ResolveCorrect(tiles, id);
    assert AtRow(tiles[i], tiles[i].box.y) == tiles[i];
    assert !Clear(placed[..j], tiles[i].box);
    var l :| 0 <= l < j && Collides(placed[..j][l].box, tiles[i].box);
    assert placed[..j][l] == placed[l];
    assert order[l] in tiles;
    var k :| 0 <= k < |tiles| && tiles[k] == order[l];
    var m := ResultOf(tiles, id, k);
    assert m == l;
    assert Collides(out[k].box, tiles[i].box);
  }

  /** On a layout without overlaps nothing moves, whichever tile is static. */
  lemma ResolveFixpoint(tiles: seq<Tile>, id: string)
    requires UniqueIds(tiles) && Disjoint(tiles)
    ensures Resolve(tiles, id) == tiles
  {
    hide Settle, Order, Placed, StaticFirst, Collides, Resolve;
    OrderLists(tiles, id);
    OrderSteps(tiles, id);
    var order, placed, out := Order(tiles, id), Placed(tiles, id), Resolve(tiles, id);
    OrderDisjoint(tiles, id);
    UnmovedAll(tiles, id, |order|);
    ResolveCorrect(tiles, id);
    forall i | 0 <= i < |tiles|
      ensures out[i] == tiles[i]
    {
      var j := ResultOf(tiles, id, i);
    }
  }

  lemma OrderDisjoint(tiles: seq<Tile>, id: string)
    requires UniqueIds(tiles) && Disjoint(tiles)
    ensures Disjoint(Order(tiles, id))
  {
    hide Order, StaticFirst, Collides;
    OrderLists(tiles, id);
    var order := Order(tiles, id);
    forall i, j | 0 <= i < |order| && 0 <= j < |order| && i != j
      ensures !Collides(order[i].box, order[j].box)
    {
      assert order[i] in tiles && order[j] in tiles;
      var a :| 0 <= a < |tiles| && tiles[a] == order[i];
      var b :| 0 <= b < |tiles| && tiles[b] == order[j];
      assert order[i].id != order[j].id;
    }
  }

  lemma {:induction false} UnmovedAll(tiles: seq<Tile>, id: string, n: nat)
    requires UniqueIds(tiles) && Disjoint(Order(tiles, id)) && n <= |Order(tiles, id)|
    ensures |Placed(tiles, id)| == |Order(tiles, id)| && Placed(tiles, id)[..n] == Order(tiles, id)[..n]
    decreases n
  {
    hide Settle, Order, Placed, StaticFirst, Collides;
    OrderSteps(tiles, id);
    if n > 0 {
      var order, placed := Order(tiles, id), Placed(tiles, id);
      var j := n - 1;
      UnmovedAll(tiles, id, j);
      assert Clear(order[..j], order[j].box);
      assert AtRow(order[j], order[j].box.y) == order[j];
      assert placed[j] == order[j];
      assert placed[..n] == placed[..j] + [placed[j]] && order[..n] == order[..j] + [order[j]];
    }
  }
}
