/** Where the dashboard falls short, each with a session in which it does. */
module DashboardLimits {
  import opened Options
  import opened GridLayout
  import opened GridResolve
  import opened DashboardPage
  import opened DashboardRuns

  // ── a grid without room ────────────────────────────────────────────────────

  /** Tiles of the full width and the largest height a resize gives, one below the other. */
  function Stack(n: nat): (tiles: seq<Tile>)
    ensures |tiles| == n
    ensures forall i | 0 <= i < n :: tiles[i] == Tile(seq(i, k => '+'), "system-info", Box(0, 16 * i, 4, 16))
  {
    seq(n, i requires 0 <= i < n => Tile(seq(i, k => '+'), "system-info", Box(0, 16 * i, 4, 16)))
  }

  lemma StackValid(n: nat)
    ensures ValidLayout(Stack(n))
  {
    forall i, j | 0 <= i < n && 0 <= j < n && i != j
      ensures Stack(n)[i].id != Stack(n)[j].id && !Collides(Stack(n)[i].box, Stack(n)[j].box)
    {
      assert |Stack(n)[i].id| == i && |Stack(n)[j].id| == j;
    }
  }

  /** Nothing fits beside a stack. */
  lemma StackHasNoRoom(n: nat, w: int, h: int, c: Cell)
    requires 16 * n >= SCAN_ROWS && w >= 1 && h >= 1
    ensures !Fits(Stack(n), w, h, c)
  {
    if 0 <= c.x <= GRID_COLS - w && 0 <= c.y < SCAN_ROWS {
      var i := c.y / 16;
      assert 16 * i <= c.y < 16 * i + 16 && i < n;
      assert Collides(Stack(n)[i].box, Box(c.x, c.y, w, h));
    }
  }

  lemma AddedOnStack(def: TileDef, kind: string, id: string)
    requires def.defaultW >= 1 && def.defaultH >= 1
    ensures !Disjoint(AddTile(Stack(13), def, kind, id))
  {
    hide FreeCell, Fits;
    forall c {
      StackHasNoRoom(13, def.defaultW, def.defaultH, c);
    }
    var tiles := AddTile(Stack(13), def, kind, id);
    assert tiles[13].box == Box(0, 0, def.defaultW, def.defaultH);
    assert tiles[0] == Stack(13)[0] && Collides(tiles[0].box, tiles[13].box);
  }

  /** A stored stack of thirteen loads as it is, and a tile of a kind it lacks is added on top of it. */
  lemma FullGridOverlaps(id: string)
    ensures
      var s := Step(Open(Some(SaveOf(Stack(13)))), Edit(true));
      && Valid(s) && s.editing && s.tiles == Stack(13)
      && (forall i | 0 <= i < |s.tiles| :: s.tiles[i].kind != "network-speed" && s.tiles[i].box.h <= MAX_ROWS)
      && !Disjoint(Step(s, Add("network-speed", id)).tiles)
  {
    hide SaveOf, Opened, Disjoint, AddTile, ValidLayout;
    assert Stack(0) == [];
    StackValid(0);
    StackValid(13);
    ReloadRestores(Stack(13));
    AddedOnStack(Registry("network-speed").value, "network-speed", id);
  }

  // ── a tile below the last drop row ─────────────────────────────────────────

  const HOME := "system-info-1"
  const SPEED := "network-speed-1"

  function Drag(s: Session, id: string, cell: Cell): Session {
    Step(Step(Step(s, TileDown(id)), TileMove(id, cell)), EndDrag)
  }

  /** From the default page: edit, add a tile, and drag both tiles to the last drop row, the default one first. */
  function PushedDown(): Session {
    var s := Step(Step(Open(None), Edit(true)), Add("network-speed", SPEED));
    Drag(Drag(s, HOME, Cell(0, 16)), SPEED, Cell(0, 16))
  }

  /** After a tile is dragged to a cell inside the bounds it is there, and the others are no higher than before. */
  lemma DragTo(s: Session, id: string, cell: Cell)
    requires Valid(s) && s.editing && FindTile(s.tiles, id).Some?
    requires 0 <= cell.x <= GRID_COLS - FindTile(s.tiles, id).value.box.w && 0 <= cell.y <= MAX_ROWS
    ensures
      var end := Drag(s, id, cell);
      && Valid(end) && end.editing && |end.tiles| == |s.tiles|
      && forall i | 0 <= i < |s.tiles| ::
           && end.tiles[i].id == s.tiles[i].id && end.tiles[i].kind == s.tiles[i].kind
           && end.tiles[i].box ==
              (if s.tiles[i].id == id then Box(cell.x, cell.y, s.tiles[i].box.w, s.tiles[i].box.h)
               else s.tiles[i].box.(y := end.tiles[i].box.y))
           && (s.tiles[i].id != id ==> end.tiles[i].box.y >= s.tiles[i].box.y)
  {
    hide Resolve, Disjoint, Opened, SaveOf, Persisted;
    var held := Step(s, TileDown(id));
    StepValid(s, TileDown(id));
    StepValid(held, TileMove(id, cell));
    StepValid(Step(held, TileMove(id, cell)), EndDrag);
    var t := FindTile(s.tiles, id).value;
    var moved := MovedTo(s.tiles, id, DropCell(t.box.w, cell));
    MoveValid(s.tiles, id, cell);
    assert UniqueIds(moved);
    ResolveCorrect(moved, id);
    forall i | 0 <= i < |s.tiles| && s.tiles[i].id == id
      ensures s.tiles[i] == t
    {
      SameTile(s.tiles, s.tiles[i], t);
    }
  }

  lemma TwoTiles()
    ensures
      var s := Step(Step(Open(None), Edit(true)), Add("network-speed", SPEED));
      && Valid(s) && s.editing && |s.tiles| == 2
      && s.tiles[0] == DEFAULT_TILES[0] && s.tiles[1].id == SPEED && s.tiles[1].box.w == 2 && s.tiles[1].box.h == 5
  {
    hide FreeCell, SaveOf, Opened, Disjoint;
    var s := Step(Open(None), Edit(true));
    DefaultValid();
    OpenDefault();
    StepValid(Open(None), Edit(true));
    assert Bottom(s.tiles) < SCAN_ROWS;
    LowEdgeHasRoom(s.tiles, "network-speed");
    StepValid(s, Add("network-speed", SPEED));
  }

  lemma OpenDefault()
    ensures Open(None).tiles == DEFAULT_TILES && Open(None).resize.None?
  {
  }

  lemma FindOne(tiles: seq<Tile>, i: nat)
    requires ValidLayout(tiles) && i < |tiles|
    ensures FindTile(tiles, tiles[i].id) == Some(tiles[i])
  {
    FoundAt(tiles, i);
  }

  /** The dragged tile pushes the other below row 16. */
  lemma PushedBelow()
    ensures
      var s := PushedDown();
      && Valid(s) && s.editing && |s.tiles| == 2 && s.tiles[0].id == HOME
      && s.tiles[0].box.x == 0 && s.tiles[0].box.y >= 21
  {
    hide Valid, Step, Open;
    TwoTiles();
    var s := Step(Step(Open(None), Edit(true)), Add("network-speed", SPEED));
    ValidParts(s);
    FindOne(s.tiles, 0);
    DragTo(s, HOME, Cell(0, 16));
    var t := Drag(s, HOME, Cell(0, 16));
    ValidParts(t);
    FindOne(t.tiles, 1);
    DragTo(t, SPEED, Cell(0, 16));
    var end := Drag(t, SPEED, Cell(0, 16));
    ValidParts(end);
    assert !Collides(end.tiles[0].box, end.tiles[1].box);
  }

  lemma ValidParts(s: Session)
    requires Valid(s)
    ensures ValidLayout(s.tiles)
  {
  }

  /** A tile that was pushed below row 16 does not return to its place when it is dragged back there. */
  lemma PushedTileDoesNotReturn()
    ensures
      var s := PushedDown();
      && Valid(s) && s.editing && |s.tiles| == 2
      && var b := s.tiles[0].box;
         RunAll(Step(s, TileDown(HOME)), Moves(HOME, [Cell(b.x, b.y)])).tiles != s.tiles
  {
    hide Valid, Step, PushedDown, RunAll;
    PushedBelow();
    var s := PushedDown();
    ValidParts(s);
    FindOne(s.tiles, 0);
    ReturnRestoresIff(s, HOME, [Cell(s.tiles[0].box.x, s.tiles[0].box.y)]);
  }

  /** A stored tile taller than 16 rows loads as it is, and a resize back to its own size shrinks it. */
  lemma TallTileShrinks(id: string)
    ensures
      var tiles := [Tile(id, "system-info", Box(0, 0, 2, 17))];
      var s := Step(Open(Some(SaveOf(tiles))), Edit(true));
      && Valid(s) && s.editing && s.tiles == tiles
      && RunAll(Step(s, ResizeDown(id)), Resizes([(0, 0)])).tiles != s.tiles
  {
    hide RunAll, Opened, SaveOf;
    var tiles := [Tile(id, "system-info", Box(0, 0, 2, 17))];
    var s := Step(Open(Some(SaveOf(tiles))), Edit(true));
    assert ValidTile(tiles[0]);
    ReloadRestores(tiles);
    ResizeBackRestoresIff(s, id, [(0, 0)]);
  }
}
