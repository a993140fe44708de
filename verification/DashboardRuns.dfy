/** What every run of adding, removing, dragging and resizing keeps. */
module DashboardRuns {
  import opened Options
  import opened GridLayout
  import opened GridResolve
  import opened DashboardPage

  /** A tile of a known kind, inside the grid and at least as large as its kind demands. */
  predicate ValidTile(t: Tile) {
    && InGrid(t.box) && Registry(t.kind).Some?
    && Registry(t.kind).value.minW <= t.box.w && Registry(t.kind).value.minH <= t.box.h
  }

  predicate ValidLayout(tiles: seq<Tile>) {
    UniqueIds(tiles) && Disjoint(tiles) && forall i | 0 <= i < |tiles| :: ValidTile(tiles[i])
  }

  /** The grip's minima are those of the tile it holds, wherever that tile is listed. */
  predicate GripFits(g: Grip, tiles: seq<Tile>) {
    forall i | 0 <= i < |tiles| && tiles[i].id == g.id ::
      Registry(tiles[i].kind).Some? &&
      g.minW == Registry(tiles[i].kind).value.minW && g.minH == Registry(tiles[i].kind).value.minH
  }

  /** What a reload of the stored layout would show. */
  predicate Persisted(s: Session) {
    Opened(s.stored) == if s.tiles == [] then DEFAULT_TILES else s.tiles
  }

  predicate Valid(s: Session) {
    && ValidLayout(s.tiles) && ValidLayout(s.base)
    && (s.resize.Some? ==> GripFits(s.resize.value, s.tiles) && GripFits(s.resize.value, s.base))
    && Persisted(s)
  }

  /** The 200 scanned rows have a free cell for a tile of the kind. */
  ghost predicate HasRoom(tiles: seq<Tile>, kind: string)
    requires Registry(kind).Some?
  {
    exists c :: Fits(tiles, Registry(kind).value.defaultW, Registry(kind).value.defaultH, c)
  }

  /** A new tile's id is new. */
  predicate NewId(s: Session, id: string) {
    (forall i | 0 <= i < |s.tiles| :: s.tiles[i].id != id) && (s.resize.Some? ==> s.resize.value.id != id)
  }

  /** New ids are new, and adding finds room. */
  ghost predicate Admissible(s: Session, e: Event) {
    e.Add? && Registry(e.kind).Some? ==> NewId(s, e.id) && HasRoom(s.tiles, e.kind)
  }

  ghost predicate AllAdmissible(s: Session, events: seq<Event>)
    decreases events
  {
    events == [] || (Admissible(s, events[0]) && AllAdmissible(Step(s, events[0]), events[1..]))
  }

  // ── storing and loading ────────────────────────────────────────────────────

  /** A layout that was stored is the layout that is loaded, except that an empty one comes back as the default. */
  lemma ReloadRestores(tiles: seq<Tile>)
    requires forall i | 0 <= i < |tiles| :: Registry(tiles[i].kind).Some?
    ensures Opened(Some(SaveOf(tiles))) == if tiles == [] then DEFAULT_TILES else tiles
  {
    var saved := SaveOf(tiles);
    assert KnownOf(saved) == saved;
    if tiles != [] {
      assert saved[0].x.Some?;
      assert TilesOf(saved) == tiles;
    }
  }

  // ── single steps ───────────────────────────────────────────────────────────

  /** Reshaping one tile inside the grid and resolving gives a valid layout again. */
  lemma ReshapeValid(base: seq<Tile>, id: string, f: Box -> Box)
    requires ValidLayout(base)
    requires forall i | 0 <= i < |base| && base[i].id == id :: ValidTile(base[i].(box := f(base[i].box)))
    ensures ValidLayout(Resolve(Reshape(base, id, f), id))
    ensures forall i | 0 <= i < |base| :: Resolve(Reshape(base, id, f), id)[i].id == base[i].id
    ensures forall i | 0 <= i < |base| :: Resolve(Reshape(base, id, f), id)[i].kind == base[i].kind
  {
    hide Resolve, Collides;
    var shaped := Reshape(base, id, f);
    assert UniqueIds(shaped);
    ResolveCorrect(shaped, id);
    var out := Resolve(shaped, id);
    forall i | 0 <= i < |out|
      ensures ValidTile(out[i])
    {
      assert ValidTile(shaped[i]);
    }
  }

  /** While one tile is dragged or resized, any other leaves its snapshot place only at the end of a chain of pushes. */
  lemma ReshapePushes(base: seq<Tile>, id: string, f: Box -> Box, i: nat)
    requires ValidLayout(base) && i < |base| && base[i].id != id
    requires forall k | 0 <= k < |base| && base[k].id == id :: f(base[k].box).h >= 1
    ensures |Resolve(Reshape(base, id, f), id)| == |base|
    ensures Resolve(Reshape(base, id, f), id)[i] != base[i] ==> Pushed(Reshape(base, id, f), id, i)
  {
    hide Collides, Resolve, Pushed;
    var shaped := Reshape(base, id, f);
    assert UniqueIds(shaped) && OthersDisjoint(shaped, id);
    ResolveCorrect(shaped, id);
    MinimalDisturbance(shaped, id, i);
  }

  /** A dropped tile keeps its size and lies in the cell under the pointer, or in the nearest one in bounds. */
  predicate DroppedAt(b: Box, start: Box, cell: Cell) {
    && b.w == start.w && b.h == start.h && 0 <= b.x <= GRID_COLS - b.w && 0 <= b.y <= MAX_ROWS
    && (0 <= cell.x <= GRID_COLS - b.w ==> b.x == cell.x) && (0 <= cell.y <= MAX_ROWS ==> b.y == cell.y)
    && (cell.x < 0 ==> b.x == 0) && (cell.x > GRID_COLS - b.w ==> b.x == GRID_COLS - b.w)
    && (cell.y < 0 ==> b.y == 0) && (cell.y > MAX_ROWS ==> b.y == MAX_ROWS)
  }

  /** A resized tile keeps its place and has the size asked for, or the nearest one the bounds allow. */
  predicate SizedBy(b: Box, start: Box, g: Grip, dw: int, dh: int) {
    && b.x == start.x && b.y == start.y && g.minW <= b.w <= GRID_COLS - b.x && g.minH <= b.h <= MAX_ROWS
    && (g.minW <= g.startW + dw <= GRID_COLS - b.x ==> b.w == g.startW + dw)
    && (g.minH <= g.startH + dh <= MAX_ROWS ==> b.h == g.startH + dh)
    && (g.startW + dw < g.minW ==> b.w == g.minW) && (g.startW + dw > GRID_COLS - b.x ==> b.w == GRID_COLS - b.x)
    && (g.startH + dh < g.minH ==> b.h == g.minH) && (g.startH + dh > MAX_ROWS ==> b.h == MAX_ROWS)
  }

  lemma MoveValid(base: seq<Tile>, id: string, cell: Cell)
    requires ValidLayout(base) && FindTile(base, id).Some?
    ensures
      var w := FindTile(base, id).value.box.w;
      var out := Resolve(MovedTo(base, id, DropCell(w, cell)), id);
      && 0 <= GRID_COLS - w
      && ValidLayout(out) && |out| == |base|
      && (forall i | 0 <= i < |base| :: out[i].id == base[i].id && out[i].kind == base[i].kind)
      && (forall i | 0 <= i < |base| && base[i].id == id :: DroppedAt(out[i].box, base[i].box, cell))
  {
    hide Resolve, Disjoint;
    var t := FindTile(base, id).value;
    var c := DropCell(t.box.w, cell);
    assert ValidTile(t);
    forall i | 0 <= i < |base| && base[i].id == id
      ensures ValidTile(base[i].(box := Box(c.x, c.y, base[i].box.w, base[i].box.h)))
    {
      SameTile(base, base[i], t);
    }
    ReshapeValid(base, id, (b: Box) => Box(c.x, c.y, b.w, b.h));
    ResolveCorrect(MovedTo(base, id, c), id);
  }

  lemma SizeInBounds(t: Tile, g: Grip, dw: int, dh: int)
    requires ValidTile(t) && g.minW == Registry(t.kind).value.minW && g.minH == Registry(t.kind).value.minH
    ensures
      var w := Clamp(g.startW + dw, g.minW, GRID_COLS - t.box.x);
      var h := Clamp(g.startH + dh, g.minH, MAX_ROWS);
      var b := Box(t.box.x, t.box.y, w, h);
      && g.minW <= GRID_COLS - t.box.x && g.minH <= MAX_ROWS
      && ValidTile(t.(box := b)) && SizedBy(b, t.box, g, dw, dh)
  {
  }

  /** The bounds a resize is clamped to never cross. */
  lemma ResizeValid(base: seq<Tile>, g: Grip, dw: int, dh: int)
    requires ValidLayout(base) && GripFits(g, base) && FindTile(base, g.id).Some?
    ensures
      var b := FindTile(base, g.id).value.box;
      var out := Resolve(ResizedTo(base, g.id, Clamp(g.startW + dw, g.minW, GRID_COLS - b.x),
                                   Clamp(g.startH + dh, g.minH, MAX_ROWS)), g.id);
      && g.minW <= GRID_COLS - b.x && g.minH <= MAX_ROWS
      && ValidLayout(out) && |out| == |base|
      && (forall i | 0 <= i < |base| :: out[i].id == base[i].id && out[i].kind == base[i].kind)
      && (forall i | 0 <= i < |base| && base[i].id == g.id :: SizedBy(out[i].box, base[i].box, g, dw, dh))
  {
    hide Resolve, Disjoint, Clamp, SizedBy, ValidTile;
    var t := FindTile(base, g.id).value;
    var w := Clamp(g.startW + dw, g.minW, GRID_COLS - t.box.x);
    var h := Clamp(g.startH + dh, g.minH, MAX_ROWS);
    SizeInBounds(t, g, dw, dh);
    forall i | 0 <= i < |base| && base[i].id == g.id
      ensures base[i] == t
    {
      SameTile(base, base[i], t);
    }
    ReshapeValid(base, g.id, (b: Box) => Box(b.x, b.y, w, h));
    ResolveCorrect(ResizedTo(base, g.id, w, h), g.id);
  }

  lemma {:induction false} OthersValid(tiles: seq<Tile>, id: string)
    requires ValidLayout(tiles)
    ensures ValidLayout(Others(tiles, id))
  {
    OthersUnique(tiles, id);
    OthersDisjointFrom(tiles, id);
    forall i | 0 <= i < |Others(tiles, id)|
      ensures ValidTile(Others(tiles, id)[i])
    {
      assert Others(tiles, id)[i] in tiles;
    }
  }

  lemma {:induction false} OthersDisjointFrom(tiles: seq<Tile>, id: string)
    requires Disjoint(tiles)
    ensures Disjoint(Others(tiles, id))
    decreases tiles
  {
    hide Collides;
    if tiles != [] {
      var rest := Others(tiles[1..], id);
      assert Disjoint(tiles[1..]);
      OthersDisjointFrom(tiles[1..], id);
      forall i | 0 <= i < |rest|
        ensures !Collides(tiles[0].box, rest[i].box) && !Collides(rest[i].box, tiles[0].box)
      {
        assert rest[i] in tiles[1..];
        var k :| 0 <= k < |tiles[1..]| && tiles[1..][k] == rest[i];
        assert tiles[k + 1] == rest[i];
      }
    }
  }

  /** Adding a tile keeps the layout valid exactly when the search finds a free cell. */
  lemma AddValidIff(tiles: seq<Tile>, kind: string, id: string)
    requires ValidLayout(tiles) && Registry(kind).Some?
    requires forall i | 0 <= i < |tiles| :: tiles[i].id != id
    ensures
      ValidLayout(AddTile(tiles, Registry(kind).value, kind, id)) <==> HasRoom(tiles, kind)
  {
    hide Collides, FreeCell;
    var def := Registry(kind).value;
    var c := FreeCell(tiles, def.defaultW, def.defaultH);
    var added := AddTile(tiles, def, kind, id);
    var t := added[|tiles|];
    if Fits(tiles, def.defaultW, def.defaultH, c) {
      DisjointMore(tiles, t);
      assert forall i | 0 <= i < |tiles| :: added[i] == tiles[i];
    } else {
      assert !Clear(tiles, t.box);
      var i :| 0 <= i < |tiles| && Collides(tiles[i].box, t.box);
      assert added[i] == tiles[i] && Collides(added[i].box, added[|tiles|].box);
    }
  }

  lemma UpdateValid(s: Session, next: seq<Tile>)
    requires Valid(s) && ValidLayout(next)
    requires s.resize.Some? ==> GripFits(s.resize.value, next)
    ensures Valid(Update(s, next))
  {
    ReloadRestores(next);
  }

  lemma AddStepValid(s: Session, kind: string, id: string)
    requires Valid(s) && Admissible(s, Add(kind, id)) && Registry(kind).Some?
    ensures Valid(Update(s, AddTile(s.tiles, Registry(kind).value, kind, id)))
  {
    hide Opened, Disjoint, UniqueIds, FreeCell, SaveOf, Collides;
    var def := Registry(kind).value;
    AddValidIff(s.tiles, kind, id);
    var next := AddTile(s.tiles, def, kind, id);
    assert forall i | 0 <= i < |s.tiles| :: next[i] == s.tiles[i];
    UpdateValid(s, next);
  }

  lemma RemoveStepValid(s: Session, id: string)
    requires Valid(s)
    ensures Valid(Update(s, Others(s.tiles, id)))
  {
    hide Opened, Disjoint, UniqueIds, SaveOf, Collides;
    OthersValid(s.tiles, id);
    assert forall t | t in Others(s.tiles, id) :: t in s.tiles;
    UpdateValid(s, Others(s.tiles, id));
  }

  lemma StepValid(s: Session, e: Event)
    requires Valid(s) && Admissible(s, e)
    ensures Valid(Step(s, e))
  {
    hide Resolve, Opened, ValidLayout, FreeCell, SaveOf, MovedTo, ResizedTo, Clamp, AddTile;
    match e
    case Add(kind, id) =>
      if Registry(kind).Some? {
        AddStepValid(s, kind, id);
      }
    case Remove(id) => RemoveStepValid(s, id);
    case TileMove(id, cell) =>
      if s.drag == Some(id) && FindTile(s.base, id).Some? {
        MoveValid(s.base, id, cell);
        UpdateValid(s, Step(s, e).tiles);
      }
    case ResizeDown(id) =>
      if FindTile(s.tiles, id).Some? {
        GripFitsOwn(s.tiles, FindTile(s.tiles, id).value);
      }
    case ResizeMove(dw, dh) =>
      if s.resize.Some? && FindTile(s.base, s.resize.value.id).Some? {
        ResizeValid(s.base, s.resize.value, dw, dh);
        UpdateValid(s, Step(s, e).tiles);
      }
    case _ =>
  }

  lemma GripFitsOwn(tiles: seq<Tile>, t: Tile)
    requires ValidLayout(tiles) && t in tiles
    ensures GripFits(GripOn(t), tiles)
  {
    forall i | 0 <= i < |tiles| && tiles[i].id == t.id
      ensures tiles[i] == t
    {
      SameTile(tiles, tiles[i], t);
    }
  }

  // ── whole runs ─────────────────────────────────────────────────────────────

  /** A bottom edge above row 200 leaves room. */
  lemma LowEdgeHasRoom(tiles: seq<Tile>, kind: string)
    requires Registry(kind).Some? && Bottom(tiles) < SCAN_ROWS
    ensures HasRoom(tiles, kind)
  {
    RoomBelow(tiles, Registry(kind).value.defaultW, Registry(kind).value.defaultH);
  }

  /**
   Every interleaving of adding, removing, dragging and resizing keeps the tiles disjoint, inside the four columns and
   no smaller than their kind allows, and a reload at any time shows the current layout.
   */
  lemma {:induction false} RunsStayValid(s: Session, events: seq<Event>)
    requires Valid(s) && AllAdmissible(s, events)
    ensures Valid(RunAll(s, events))
    decreases events
  {
    if events != [] {
      StepValid(s, events[0]);
      RunsStayValid(Step(s, events[0]), events[1..]);
    }
  }

  lemma DefaultValid()
    ensures Valid(Open(None))
  {
    assert ValidTile(DEFAULT_TILES[0]);
  }

  /** A stored layout opens valid when it was valid, or when it is packed from known tiles of fitting sizes. */
  lemma OpenValid(saved: seq<Saved>)
    requires saved != [] && forall i | 0 <= i < |saved| :: Registry(saved[i].kind).Some?
    requires UniqueIds(TilesOf(saved)) && Heights(TilesOf(saved)) <= SCAN_ROWS
    requires forall i | 0 <= i < |saved| :: var def := Registry(saved[i].kind).value;
               def.minW <= saved[i].w && def.minH <= saved[i].h
    requires LacksPosition(saved)
    ensures ValidLayout(Opened(Some(saved)))
  {
    hide Pack, Heights, Disjoint, Fits, KnownOf;
    var tiles := TilesOf(saved);
    assert KnownOf(saved) == saved;
    PackCorrect(tiles);
    var out := Pack(tiles);
    forall i | 0 <= i < |out|
      ensures ValidTile(out[i]) && out[i].id == tiles[i].id
    {
      assert PackedAt(tiles, i) && InGrid(out[i].box);
    }
  }

  // ── drags ──────────────────────────────────────────────────────────────────

  function Moves(id: string, cells: seq<Cell>): (es: seq<Event>)
    ensures |es| == |cells| && forall i | 0 <= i < |cells| :: es[i] == TileMove(id, cells[i])
  {
    seq(|cells|, i requires 0 <= i < |cells| => TileMove(id, cells[i]))
  }

  /** The layout during a drag depends on the snapshot taken at its start and the last cell only. */
  lemma {:induction false} DragForgetsPath(s: Session, id: string, cells: seq<Cell>)
    requires s.drag == Some(id) && FindTile(s.base, id).Some? && cells != []
    ensures
      var w := FindTile(s.base, id).value.box.w;
      RunAll(s, Moves(id, cells)) ==
      Update(s, Resolve(MovedTo(s.base, id, DropCell(w, cells[|cells| - 1])), id))
    decreases cells
  {
    hide Resolve, FindTile, MovedTo;
    var es := Moves(id, cells);
    var next := Step(s, es[0]);
    if |cells| == 1 {
      assert es[1..] == [];
      assert RunAll(next, []) == next;
    } else {
      assert es[1..] == Moves(id, cells[1..]);
      DragForgetsPath(next, id, cells[1..]);
    }
  }

  lemma MovedBackIff(tiles: seq<Tile>, t: Tile)
    requires ValidLayout(tiles) && t in tiles
    ensures Resolve(MovedTo(tiles, t.id, DropCell(t.box.w, Cell(t.box.x, t.box.y))), t.id) == tiles <==>
            t.box.y <= MAX_ROWS
  {
    hide Resolve, Disjoint;
    assert ValidTile(t);
    var moved := MovedTo(tiles, t.id, DropCell(t.box.w, Cell(t.box.x, t.box.y)));
    assert UniqueIds(moved);
    ResolveCorrect(moved, t.id);
    if t.box.y <= MAX_ROWS {
      forall i | 0 <= i < |moved|
        ensures moved[i] == tiles[i]
      {
        if tiles[i].id == t.id {
          SameTile(tiles, tiles[i], t);
        }
      }
      assert moved == tiles;
      ResolveFixpoint(tiles, t.id);
    } else {
      var i :| 0 <= i < |tiles| && tiles[i] == t;
      assert moved[i].box.y == MAX_ROWS;
    }
  }

  /** Ending a drag where it began restores the layout exactly, unless the tile began below the last drop row. */
  lemma ReturnRestoresIff(s: Session, id: string, cells: seq<Cell>)
    requires Valid(s) && s.editing && FindTile(s.tiles, id).Some? && cells != []
    requires
      var b := FindTile(s.tiles, id).value.box;
      cells[|cells| - 1] == Cell(b.x, b.y)
    ensures RunAll(Step(s, TileDown(id)), Moves(id, cells)).tiles == s.tiles <==>
            FindTile(s.tiles, id).value.box.y <= 16
  {
    hide Resolve, Disjoint, Opened, SaveOf, MovedTo, FindTile, RunAll, DropCell;
    DragForgetsPath(Step(s, TileDown(id)), id, cells);
    MovedBackIff(s.tiles, FindTile(s.tiles, id).value);
  }

  // ── resizes ────────────────────────────────────────────────────────────────

  function Resizes(sizes: seq<(int, int)>): (es: seq<Event>)
    ensures |es| == |sizes| && forall i | 0 <= i < |sizes| :: es[i] == ResizeMove(sizes[i].0, sizes[i].1)
  {
    seq(|sizes|, i requires 0 <= i < |sizes| => ResizeMove(sizes[i].0, sizes[i].1))
  }

  /** The layout during a resize depends on the snapshot, the size at its start and the last size change only. */
  lemma {:induction false} ResizeForgetsPath(s: Session, sizes: seq<(int, int)>)
    requires s.resize.Some? && FindTile(s.base, s.resize.value.id).Some? && sizes != []
    ensures
      var last := sizes[|sizes| - 1];
      RunAll(s, Resizes(sizes)) == Step(s, ResizeMove(last.0, last.1))
    decreases sizes
  {
    hide Resolve, FindTile, ResizedTo, Clamp;
    var es := Resizes(sizes);
    var next := Step(s, es[0]);
    if |sizes| == 1 {
      assert es[1..] == [];
      assert RunAll(next, []) == next;
    } else {
      assert es[1..] == Resizes(sizes[1..]);
      ResizeForgetsPath(next, sizes[1..]);
    }
  }

  lemma SizedBackIff(tiles: seq<Tile>, t: Tile, minH: int)
    requires ValidLayout(tiles) && t in tiles && minH <= t.box.h && minH <= MAX_ROWS
    ensures Resolve(ResizedTo(tiles, t.id, t.box.w, Clamp(t.box.h, minH, MAX_ROWS)), t.id) == tiles <==>
            t.box.h <= MAX_ROWS
  {
    hide Resolve, Disjoint;
    var shaped := ResizedTo(tiles, t.id, t.box.w, Clamp(t.box.h, minH, MAX_ROWS));
    assert UniqueIds(shaped);
    ResolveCorrect(shaped, t.id);
    if t.box.h <= MAX_ROWS {
      forall i | 0 <= i < |shaped|
        ensures shaped[i] == tiles[i]
      {
        if tiles[i].id == t.id {
          SameTile(tiles, tiles[i], t);
        }
      }
      assert shaped == tiles;
      ResolveFixpoint(tiles, t.id);
    } else {
      var i :| 0 <= i < |tiles| && tiles[i] == t;
      assert shaped[i].box.h == MAX_ROWS;
    }
  }

  /** Ending a resize at the original size restores the layout exactly, unless the tile was taller than allowed. */
  lemma ResizeBackRestoresIff(s: Session, id: string, sizes: seq<(int, int)>)
    requires Valid(s) && FindTile(s.tiles, id).Some? && sizes != [] && sizes[|sizes| - 1] == (0, 0)
    ensures RunAll(Step(s, ResizeDown(id)), Resizes(sizes)).tiles == s.tiles <==>
            FindTile(s.tiles, id).value.box.h <= 16
  {
    hide Resolve, Disjoint, Opened, SaveOf, ResizedTo, FindTile, RunAll;
    var t := FindTile(s.tiles, id).value;
    ResizeForgetsPath(Step(s, ResizeDown(id)), sizes);
    assert ValidTile(t);
    SizedBackIff(s.tiles, t, GripOn(t).minH);
  }
}
