/** Push-down resolution has one result, described without the order in which tiles are placed. */
module GridUnique {
  import opened GridLayout
  import opened GridResolve

  /** Tile `k` has precedence over tile `i`: it is the static one, or starts further up, or left of it in the same row. */
  predicate Precedes(tiles: seq<Tile>, id: string, k: nat, i: nat)
    requires k < |tiles| && i < |tiles|
  {
    k != i && tiles[i].id != id &&
    (tiles[k].id == id || tiles[k].box.y < tiles[i].box.y ||
     (tiles[k].box.y == tiles[i].box.y && tiles[k].box.x <= tiles[i].box.x))
  }

  /** In row `y`, at or below its own but above its new one, tile `i` would overlap a tile with precedence. */
  ghost predicate BlockedAt(tiles: seq<Tile>, id: string, out: seq<Tile>, i: nat, y: int)
    requires |out| == |tiles| && i < |tiles|
  {
    exists k | 0 <= k < |tiles| :: Precedes(tiles, id, k, i) && Collides(out[k].box, AtRow(tiles[i], y).box)
  }

  /** No two tiles overlap, the static one stays, and each other one sinks only as far as tiles with precedence make it. */
  ghost predicate Settled(tiles: seq<Tile>, id: string, out: seq<Tile>) {
    && |out| == |tiles| && Disjoint(out)
    && (forall i | 0 <= i < |tiles| ::
          && out[i] == AtRow(tiles[i], out[i].box.y) && tiles[i].box.y <= out[i].box.y
          && (tiles[i].id == id ==> out[i] == tiles[i]))
    && (forall i, y | 0 <= i < |tiles| && tiles[i].box.y <= y < out[i].box.y :: BlockedAt(tiles, id, out, i, y))
  }

  /** No two tiles start in the same cell, apart from the static one. */
  ghost predicate DistinctStarts(tiles: seq<Tile>, id: string) {
    forall i, j | 0 <= i < j < |tiles| && tiles[i].id != id && tiles[j].id != id ::
      tiles[i].box.x != tiles[j].box.x || tiles[i].box.y != tiles[j].box.y
  }

  /** Where tile `k` stands in the order of placing. */
  lemma PlaceOf(tiles: seq<Tile>, id: string, k: nat) returns (j: nat)
    requires UniqueIds(tiles) && k < |tiles|
    ensures j < |Order(tiles, id)| && Order(tiles, id)[j] == tiles[k]
  {
    hide Order;
    OrderLists(tiles, id);
    assert tiles[k] in Order(tiles, id);
    j :| 0 <= j < |Order(tiles, id)| && Order(tiles, id)[j] == tiles[k];
  }

  lemma BlockedWhenMoved(tiles: seq<Tile>, id: string, i: nat, y: int)
    requires UniqueIds(tiles) && i < |tiles| && |Resolve(tiles, id)| == |tiles|
    requires tiles[i].box.y <= y < Resolve(tiles, id)[i].box.y
    ensures BlockedAt(tiles, id, Resolve(tiles, id), i, y)
  {
    hide Settle, Order, GridResolve.Placed, StaticFirst, Collides, Resolve;
    var order, placed, out := Order(tiles, id), GridResolve.Placed(tiles, id), Resolve(tiles, id);
    ResolveCorrect(tiles, id);
    OrderLists(tiles, id);
    OrderSteps(tiles, id);
    var j := ResultOf(tiles, id, i);
    assert !Clear(placed[..j], AtRow(tiles[i], y).box);
    var l :| 0 <= l < j && Collides(placed[..j][l].box, AtRow(tiles[i], y).box);
    assert placed[..j][l] == placed[l];
    assert order[l] in tiles;
    var k :| 0 <= k < |tiles| && tiles[k] == order[l];
    var m := ResultOf(tiles, id, k);
    assert m == l;
    assert Precedes(tiles, id, k, i);
  }

  lemma ResolveSettled(tiles: seq<Tile>, id: string)
    requires UniqueIds(tiles)
    ensures Settled(tiles, id, Resolve(tiles, id))
  {
    hide Settle, Order, GridResolve.Placed, StaticFirst, Collides, Resolve, BlockedAt;
    ResolveCorrect(tiles, id);
    forall i, y | 0 <= i < |tiles| && tiles[i].box.y <= y < Resolve(tiles, id)[i].box.y
      ensures BlockedAt(tiles, id, Resolve(tiles, id), i, y)
    {
      BlockedWhenMoved(tiles, id, i, y);
    }
  }

  /** Of two tiles that start in different cells the one with precedence is placed first. */
  lemma PrecedesFirst(tiles: seq<Tile>, id: string, k: nat, i: nat, l: nat, j: nat)
    requires UniqueIds(tiles) && DistinctStarts(tiles, id) && k < |tiles| && i < |tiles|
    requires Precedes(tiles, id, k, i)
    requires l < |Order(tiles, id)| && Order(tiles, id)[l] == tiles[k]
    requires j < |Order(tiles, id)| && Order(tiles, id)[j] == tiles[i]
    ensures l < j
  {
    hide Order, StaticFirst;
    OrderLists(tiles, id);
    assert tiles[k].id != tiles[i].id;
    if tiles[k].id != id && l > j {
      assert false;
    }
  }

  /** Two settled layouts agree on a tile when they agree on those placed before it. */
  lemma NotAbove(tiles: seq<Tile>, id: string, a: seq<Tile>, b: seq<Tile>, i: nat, j: nat)
    requires UniqueIds(tiles) && DistinctStarts(tiles, id) && Settled(tiles, id, a) && Settled(tiles, id, b)
    requires i < |tiles| && j < |Order(tiles, id)| && Order(tiles, id)[j] == tiles[i]
    requires forall k, l | 0 <= k < |tiles| && 0 <= l < j && Order(tiles, id)[l] == tiles[k] :: a[k] == b[k]
    ensures a[i].box.y >= b[i].box.y
  {
    hide Order, Collides;
    var y := a[i].box.y;
    if y < b[i].box.y {
      assert BlockedAt(tiles, id, b, i, y);
      var k :| 0 <= k < |tiles| && Precedes(tiles, id, k, i) && Collides(b[k].box, AtRow(tiles[i], y).box);
      var l := PlaceOf(tiles, id, k);
      PrecedesFirst(tiles, id, k, i, l, j);
      assert false;
    }
  }

  lemma {:induction false} SettledAgree(tiles: seq<Tile>, id: string, a: seq<Tile>, b: seq<Tile>, n: nat)
    requires UniqueIds(tiles) && DistinctStarts(tiles, id) && Settled(tiles, id, a) && Settled(tiles, id, b)
    requires n <= |Order(tiles, id)|
    ensures forall k, l | 0 <= k < |tiles| && 0 <= l < n && Order(tiles, id)[l] == tiles[k] :: a[k] == b[k]
    decreases n
  {
    hide Order, Settled, Disjoint;
    if n > 0 {
      SettledAgree(tiles, id, a, b, n - 1);
      SettledLength(tiles, id, a);
      SettledLength(tiles, id, b);
      forall k | 0 <= k < |tiles| && Order(tiles, id)[n - 1] == tiles[k]
        ensures a[k] == b[k]
      {
        NotAbove(tiles, id, a, b, k, n - 1);
        NotAbove(tiles, id, b, a, k, n - 1);
        SettledRows(tiles, id, a, k);
        SettledRows(tiles, id, b, k);
      }
    }
  }

  lemma SettledRows(tiles: seq<Tile>, id: string, out: seq<Tile>, i: nat)
    requires Settled(tiles, id, out) && i < |tiles|
    ensures |out| == |tiles| && out[i] == AtRow(tiles[i], out[i].box.y)
  {
  }

  /**
   The resolved layout is the only one without overlaps in which the static tile stays and every other tile sinks no
   further than tiles with precedence over it force it to.
   */
  lemma ResolvedIff(tiles: seq<Tile>, id: string, out: seq<Tile>)
    requires UniqueIds(tiles) && DistinctStarts(tiles, id)
    ensures Settled(tiles, id, out) <==> out == Resolve(tiles, id)
  {
    hide Order, Settled, Resolve;
    ResolveSettled(tiles, id);
    if Settled(tiles, id, out) {
      var n := |Order(tiles, id)|;
      SettledAgree(tiles, id, out, Resolve(tiles, id), n);
      SettledLength(tiles, id, out);
      SettledLength(tiles, id, Resolve(tiles, id));
      forall i | 0 <= i < |tiles|
        ensures out[i] == Resolve(tiles, id)[i]
      {
        var j := PlaceOf(tiles, id, i);
      }
    }
  }

  lemma SettledLength(tiles: seq<Tile>, id: string, out: seq<Tile>)
    requires Settled(tiles, id, out)
    ensures |out| == |tiles|
  {
  }
}
