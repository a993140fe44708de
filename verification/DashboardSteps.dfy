/** What the dashboard's events do, as an operator sees it. */
module DashboardSteps {
  import opened Options
  import opened GridLayout
  import opened GridResolve
  import opened GridUnique
  import opened DashboardPage
  import opened DashboardRuns

  /** On a valid page no cell belongs to two tiles; tiles lie in the four columns, and none is below its kind's minimum. */
  lemma ValidMeans(s: Session)
    requires Valid(s)
    ensures forall i, j, x, y | 0 <= i < j < |s.tiles| && Covers(s.tiles[i].box, x, y) :: !Covers(s.tiles[j].box, x, y)
    ensures forall i | 0 <= i < |s.tiles| ::
              var t := s.tiles[i];
              && 0 <= t.box.x && t.box.x + t.box.w <= 4 && 0 <= t.box.y
              && ((t.kind == "system-info" && t.box.w >= 1 && t.box.h >= 4) ||
                  (t.kind == "interface-stats" && t.box.w >= 1 && t.box.h >= 3) ||
                  (t.kind == "network-speed" && t.box.w >= 2 && t.box.h >= 4))
  {
    hide Collides, Persisted, GripFits;
    forall i, j, x, y | 0 <= i < j < |s.tiles| && Covers(s.tiles[i].box, x, y)
      ensures !Covers(s.tiles[j].box, x, y)
    {
      assert ValidTile(s.tiles[i]) && ValidTile(s.tiles[j]);
      CollideIffShared(s.tiles[i].box, s.tiles[j].box);
    }
    forall i | 0 <= i < |s.tiles|
      ensures ValidTile(s.tiles[i])
    {
    }
  }

  /** The cell is one of the first 200 rows at which a tile of the size shares no cell with another. */
  ghost predicate Free(tiles: seq<Tile>, w: int, h: int, c: Cell) {
    && 0 <= c.x && c.x + w <= 4 && 0 <= c.y < 200
    && forall i, x, y | 0 <= i < |tiles| && Covers(tiles[i].box, x, y) :: !Covers(Box(c.x, c.y, w, h), x, y)
  }

  lemma FreeIffFits(tiles: seq<Tile>, w: int, h: int, c: Cell)
    requires w > 0 && h > 0 && forall i | 0 <= i < |tiles| :: tiles[i].box.w > 0 && tiles[i].box.h > 0
    ensures Free(tiles, w, h, c) <==> Fits(tiles, w, h, c)
  {
    hide Collides, Covers;
    forall i | 0 <= i < |tiles| {
      CollideIffShared(tiles[i].box, Box(c.x, c.y, w, h));
    }
  }

  /** An added tile of a known kind is the last, two columns wide, in the first free cell by row and column. */
  lemma AddPlaces(s: Session, kind: string, id: string) returns (c: Cell)
    requires Valid(s) && kind in {"system-info", "interface-stats", "network-speed"}
    ensures
      var h := if kind == "system-info" then 6 else 5;
      && Step(s, Add(kind, id)).tiles == s.tiles + [Tile(id, kind, Box(c.x, c.y, 2, h))]
      && (Free(s.tiles, 2, h, c) || (c == Cell(0, 0) && forall d :: !Free(s.tiles, 2, h, d)))
      && (forall d: Cell | d.y < c.y || (d.y == c.y && d.x < c.x) :: !Free(s.tiles, 2, h, d))
  {
    hide Free, Fits, Opened, SaveOf, FreeFrom, Persisted, Disjoint;
    var h := if kind == "system-info" then 6 else 5;
    c := FreeCell(s.tiles, 2, h);
    forall i | 0 <= i < |s.tiles|
      ensures s.tiles[i].box.w > 0 && s.tiles[i].box.h > 0
    {
      assert ValidTile(s.tiles[i]);
    }
    forall d
      ensures Free(s.tiles, 2, h, d) <==> Fits(s.tiles, 2, h, d)
    {
      FreeIffFits(s.tiles, 2, h, d);
    }
  }

  /** A kind the page does not know adds nothing. */
  lemma UnknownAddsNothing(s: Session, kind: string, id: string)
    requires kind !in {"system-info", "interface-stats", "network-speed"}
    ensures Step(s, Add(kind, id)) == s
  {
  }

  lemma {:induction false} OthersAre(before: seq<Tile>, t: Tile, after: seq<Tile>)
    requires forall i | 0 <= i < |before| :: before[i].id != t.id
    requires forall i | 0 <= i < |after| :: after[i].id != t.id
    ensures Others(before + [t] + after, t.id) == before + after
    decreases before
  {
    var tiles := before + [t] + after;
    if before == [] {
      assert tiles[1..] == after && before + after == after;
      AllOthers(after, t.id);
    } else {
      assert tiles[1..] == before[1..] + [t] + after;
      assert before + after == [before[0]] + (before[1..] + after);
      OthersAre(before[1..], t, after);
    }
  }

  lemma {:induction false} AllOthers(tiles: seq<Tile>, id: string)
    requires forall i | 0 <= i < |tiles| :: tiles[i].id != id
    ensures Others(tiles, id) == tiles
    decreases tiles
  {
    if tiles != [] {
      AllOthers(tiles[1..], id);
    }
  }

  /** Removing takes out one tile and leaves the others where they are, in their order. */
  lemma RemoveTakesOne(s: Session, i: nat)
    requires Valid(s) && i < |s.tiles|
    ensures Step(s, Remove(s.tiles[i].id)).tiles == s.tiles[..i] + s.tiles[i + 1..]
  {
    hide Others, Persisted, Disjoint, SaveOf;
    assert s.tiles == s.tiles[..i] + [s.tiles[i]] + s.tiles[i + 1..];
    OthersAre(s.tiles[..i], s.tiles[i], s.tiles[i + 1..]);
  }

  lemma RemoveNothing(s: Session, id: string)
    requires forall i | 0 <= i < |s.tiles| :: s.tiles[i].id != id
    ensures Step(s, Remove(id)).tiles == s.tiles
  {
    AllOthers(s.tiles, id);
  }

  /** While a tile of a valid page is dragged or resized, the others lie as precedence in the snapshot forces them to. */
  lemma ReshapedIff(base: seq<Tile>, id: string, f: Box -> Box, out: seq<Tile>)
    requires ValidLayout(base)
    ensures Settled(Reshape(base, id, f), id, out) <==> out == Resolve(Reshape(base, id, f), id)
  {
    hide Resolve, Settled;
    var tiles := Reshape(base, id, f);
    assert UniqueIds(tiles);
    forall i, j | 0 <= i < j < |tiles| && tiles[i].id != id && tiles[j].id != id
      ensures tiles[i].box.x != tiles[j].box.x || tiles[i].box.y != tiles[j].box.y
    {
      assert tiles[i] == base[i] && tiles[j] == base[j];
      assert ValidTile(base[i]) && ValidTile(base[j]) && !Collides(base[i].box, base[j].box);
    }
    ResolvedIff(tiles, id, out);
  }

  // ── outside a drag or a resize ─────────────────────────────────────────────

  /** After the release of a dragged tile, pointer moves over any tile do nothing. */
  lemma {:induction false} ReleasedDragIsOver(s: Session, id: string, cells: seq<Cell>)
    ensures RunAll(Step(s, EndDrag), Moves(id, cells)) == Step(s, EndDrag)
    decreases cells
  {
    hide Resolve, MovedTo, FindTile;
    var es := Moves(id, cells);
    if cells != [] {
      assert es[1..] == Moves(id, cells[1..]);
      ReleasedDragIsOver(s, id, cells[1..]);
      assert Step(Step(s, EndDrag), es[0]) == Step(s, EndDrag);
    }
  }

  lemma {:induction false} ReleasedResizeIsOver(s: Session, sizes: seq<(int, int)>)
    ensures RunAll(Step(s, EndResize), Resizes(sizes)) == Step(s, EndResize)
    decreases sizes
  {
    hide Resolve, ResizedTo, FindTile;
    var es := Resizes(sizes);
    if sizes != [] {
      assert es[1..] == Resizes(sizes[1..]);
      ReleasedResizeIsOver(s, sizes[1..]);
      assert Step(Step(s, EndResize), es[0]) == Step(s, EndResize);
    }
  }

  /** While one tile is dragged, moves over another do nothing; and outside edit mode no tile is taken up. */
  lemma OnlyTheHeldTileMoves(s: Session, id: string, cell: Cell)
    ensures s.drag != Some(id) ==> Step(s, TileMove(id, cell)) == s
    ensures !s.editing ==> Step(s, TileDown(id)) == s
    ensures s.editing ==> Step(s, TileDown(id)).drag == Some(id) && Step(s, TileDown(id)).base == s.tiles
  {
    hide Resolve, MovedTo, FindTile;
  }

  /** Each event changes its own part of the page only, and what it shows is what it stores. */
  lemma EventsKeepApart(s: Session, e: Event)
    ensures
      var after := Step(s, e);
      match e
      case Edit(on) => after == s.(editing := on)
      case Add(_, _) => after == s || after == s.(tiles := after.tiles, stored := Some(SaveOf(after.tiles)))
      case Remove(_) => after == s.(tiles := after.tiles, stored := Some(SaveOf(after.tiles)))
      case TileDown(_) => after == s.(base := after.base, drag := after.drag)
      case TileMove(_, _) => after == s || after == s.(tiles := after.tiles, stored := Some(SaveOf(after.tiles)))
      case EndDrag => after == s.(drag := None)
      case ResizeDown(_) => after == s.(base := after.base, resize := after.resize)
      case ResizeMove(_, _) => after == s || after == s.(tiles := after.tiles, stored := Some(SaveOf(after.tiles)))
      case EndResize => after == s.(resize := None)
  {
    hide Resolve, MovedTo, ResizedTo, FindTile, SaveOf, FreeCell, Others;
  }

  // ── loading ────────────────────────────────────────────────────────────────

  /** Loading keeps the tiles of known kinds, in their order, and drops the others. */
  lemma {:induction false} KnownAppend(a: seq<Saved>, t: Saved)
    ensures KnownOf([]) == []
    ensures KnownOf(a + [t]) ==
            KnownOf(a) + if t.kind in {"system-info", "interface-stats", "network-speed"} then [t] else []
    decreases a
  {
    if a == [] {
      assert a + [t] == [t];
    } else {
      assert (a + [t])[1..] == a[1..] + [t];
      KnownAppend(a[1..], t);
    }
  }

  /** A stored layout is shown in its places if every known tile has one; if any lacks one, all are packed. */
  lemma LoadsOrPacks(saved: seq<Saved>)
    requires KnownOf(saved) != []
    ensures
      var known := KnownOf(saved);
      && ((forall i | 0 <= i < |known| :: known[i].x.Some? && known[i].y.Some?) ==>
            && |Opened(Some(saved))| == |known|
            && forall i | 0 <= i < |known| ::
                 Opened(Some(saved))[i] ==
                 Tile(known[i].id, known[i].kind, Box(known[i].x.value, known[i].y.value, known[i].w, known[i].h)))
      && ((exists i :: 0 <= i < |known| && (known[i].x.None? || known[i].y.None?)) ==>
            Opened(Some(saved)) == Pack(TilesOf(known)))
  {
    hide Pack, KnownOf;
  }
}
