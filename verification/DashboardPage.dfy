/** The dashboard page: tiles, the snapshot a drag or resize starts from, and the stored layout. */
module DashboardPage {
  import opened Options
  import opened GridLayout
  import opened GridResolve

  const MAX_ROWS := 16

  datatype TileDef = TileDef(defaultW: int, defaultH: int, minW: int, minH: int)

  function Registry(kind: string): Option<TileDef> {
    match kind
    case "system-info" => Some(TileDef(2, 6, 1, 4))
    case "interface-stats" => Some(TileDef(2, 5, 1, 3))
    case "network-speed" => Some(TileDef(2, 5, 2, 4))
    case _ => None
  }

  const DEFAULT_TILES := [Tile("system-info-1", "system-info", Box(0, 0, 2, 6))]

  // ── the stored layout ──────────────────────────────────────────────────────

  /** A stored tile; older layouts have no position. */
  datatype Saved = Saved(id: string, kind: string, x: Option<int>, y: Option<int>, w: int, h: int)

  function SaveOf(tiles: seq<Tile>): (saved: seq<Saved>)
    ensures |saved| == |tiles|
    ensures forall i | 0 <= i < |tiles| ::
              var b := tiles[i].box; saved[i] == Saved(tiles[i].id, tiles[i].kind, Some(b.x), Some(b.y), b.w, b.h)
  {
    seq(|tiles|, i requires 0 <= i < |tiles| =>
      var b := tiles[i].box; Saved(tiles[i].id, tiles[i].kind, Some(b.x), Some(b.y), b.w, b.h))
  }

  function KnownOf(saved: seq<Saved>): (known: seq<Saved>)
    ensures forall i | 0 <= i < |known| :: Registry(known[i].kind).Some?
    ensures (forall i | 0 <= i < |saved| :: Registry(saved[i].kind).Some?) ==> known == saved
  {
    if saved == [] then []
    else
      var rest := KnownOf(saved[1..]);
      if Registry(saved[0].kind).Some? then
        assert (forall i | 0 <= i < |saved| :: Registry(saved[i].kind).Some?) ==> rest == saved[1..] by {
          assert forall i | 0 <= i < |saved[1..]| :: saved[1..][i] == saved[i + 1];
        }
        [saved[0]] + rest
      else rest
  }

  function TilesOf(saved: seq<Saved>): (tiles: seq<Tile>)
    ensures |tiles| == |saved|
  {
    seq(|saved|, i requires 0 <= i < |saved| =>
      var s := saved[i];
      Tile(s.id, s.kind, Box(if s.x.Some? then s.x.value else 0, if s.y.Some? then s.y.value else 0, s.w, s.h)))
  }

  predicate LacksPosition(saved: seq<Saved>) {
    exists i | 0 <= i < |saved| :: saved[i].x.None? || saved[i].y.None?
  }

  /** Loading: the known tiles, packed if any lacks a position, or the default layout. */
  function Opened(stored: Option<seq<Saved>>): seq<Tile> {
    var known := if stored.Some? then KnownOf(stored.value) else [];
    if known == [] then DEFAULT_TILES
    else if LacksPosition(known) then Pack(TilesOf(known))
    else TilesOf(known)
  }

  // ── the session ────────────────────────────────────────────────────────────

  datatype Grip = Grip(id: string, startW: int, startH: int, minW: int, minH: int)

  datatype Session = Session(tiles: seq<Tile>, base: seq<Tile>, drag: Option<string>, resize: Option<Grip>,
                             editing: bool, stored: Option<seq<Saved>>)

  datatype Event =
    | Edit(on: bool)
    | Add(kind: string, id: string)
    | Remove(id: string)
    | TileDown(id: string)
    | TileMove(id: string, cell: Cell)
    | EndDrag
    | ResizeDown(id: string)
    | ResizeMove(dw: int, dh: int)
    | EndResize

  function Open(stored: Option<seq<Saved>>): Session {
    Session(Opened(stored), [], None, None, false, stored)
  }

  function Update(s: Session, tiles: seq<Tile>): Session {
    s.(tiles := tiles, stored := Some(SaveOf(tiles)))
  }

  /** The tile with an id takes a new box. */
  function Reshape(tiles: seq<Tile>, id: string, f: Box -> Box): (out: seq<Tile>)
    ensures |out| == |tiles|
    ensures forall i | 0 <= i < |tiles| ::
              out[i] == if tiles[i].id == id then tiles[i].(box := f(tiles[i].box)) else tiles[i]
  {
    seq(|tiles|, i requires 0 <= i < |tiles| =>
      if tiles[i].id == id then tiles[i].(box := f(tiles[i].box)) else tiles[i])
  }

  /** The cell a drag snaps to, given the cell under the pointer. */
  function DropCell(w: int, cell: Cell): Cell {
    Cell(Clamp(cell.x, 0, GRID_COLS - w), Clamp(cell.y, 0, MAX_ROWS))
  }

  function MovedTo(base: seq<Tile>, id: string, c: Cell): seq<Tile> {
    Reshape(base, id, (b: Box) => Box(c.x, c.y, b.w, b.h))
  }

  function ResizedTo(base: seq<Tile>, id: string, w: int, h: int): seq<Tile> {
    Reshape(base, id, (b: Box) => Box(b.x, b.y, w, h))
  }

  function GripOn(t: Tile): Grip {
    var def := Registry(t.kind);
    Grip(t.id, t.box.w, t.box.h, if def.Some? then def.value.minW else 1, if def.Some? then def.value.minH else 1)
  }

  function AddTile(tiles: seq<Tile>, def: TileDef, kind: string, id: string): seq<Tile> {
    var c := FreeCell(tiles, def.defaultW, def.defaultH);
    tiles + [Tile(id, kind, Box(c.x, c.y, def.defaultW, def.defaultH))]
  }

  function Step(s: Session, e: Event): Session {
    match e
    case Edit(on) => s.(editing := on)
    case Add(kind, id) =>
      if Registry(kind).None? then s else Update(s, AddTile(s.tiles, Registry(kind).value, kind, id))
    case Remove(id) => Update(s, Others(s.tiles, id))
    case TileDown(id) => if !s.editing then s else s.(base := s.tiles, drag := Some(id))
    case TileMove(id, cell) =>
      var tile := FindTile(s.base, id);
      if s.drag != Some(id) || tile.None? then s
      else Update(s, Resolve(MovedTo(s.base, id, DropCell(tile.value.box.w, cell)), id))
    case EndDrag => s.(drag := None)
    case ResizeDown(id) =>
      if FindTile(s.tiles, id).None? then s
      else s.(base := s.tiles, resize := Some(GripOn(FindTile(s.tiles, id).value)))
    case ResizeMove(dw, dh) =>
      if s.resize.None? || FindTile(s.base, s.resize.value.id).None? then s
      else
        var r := s.resize.value;
        var b := FindTile(s.base, r.id).value.box;
        var w := Clamp(r.startW + dw, r.minW, GRID_COLS - b.x);
        var h := Clamp(r.startH + dh, r.minH, MAX_ROWS);
        Update(s, Resolve(ResizedTo(s.base, r.id, w, h), r.id))
    case EndResize => s.(resize := None)
  }

  function RunAll(s: Session, events: seq<Event>): Session
    decreases events
  {
    if events == [] then s else RunAll(Step(s, events[0]), events[1..])
  }

  /** The page and its grid component, whose handlers reassign the state in place. */
  class Dashboard {
    var tiles: seq<Tile>
    var base: seq<Tile>
    var drag: Option<string>
    var resize: Option<Grip>
    var editing: bool
    var stored: Option<seq<Saved>>

    function View(): Session
      reads this
    {
      Session(tiles, base, drag, resize, editing, stored)
    }

    constructor (stored: Option<seq<Saved>>)
      ensures View() == Open(stored)
    {
      this.tiles, this.base, this.drag, this.resize := Opened(stored), [], None, None;
      this.editing, this.stored := false, stored;
    }

    method Store(next: seq<Tile>)
      modifies `tiles, `stored
      ensures View() == Update(old(View()), next)
    {
      tiles, stored := next, Some(SaveOf(next));
    }

    method OnAdd(kind: string, id: string)
      modifies `tiles, `stored
      ensures View() == Step(old(View()), Add(kind, id))
    {
      var def := Registry(kind);
      if def.Some? {
        var c := FindFreeCell(tiles, def.value.defaultW, def.value.defaultH);
        FirstFitUnique(tiles, def.value.defaultW, def.value.defaultH, c,
                       FreeCell(tiles, def.value.defaultW, def.value.defaultH));
        Store(tiles + [Tile(id, kind, Box(c.x, c.y, def.value.defaultW, def.value.defaultH))]);
      }
    }

    method OnRemove(id: string)
      modifies `tiles, `stored
      ensures View() == Step(old(View()), Remove(id))
    {
      Store(Others(tiles, id));
    }

    method OnTileDown(id: string)
      modifies `base, `drag
      ensures View() == Step(old(View()), TileDown(id))
    {
      if editing {
        base, drag := tiles, Some(id);
      }
    }

    method OnTileMove(id: string, cell: Cell)
      modifies `tiles, `stored
      ensures View() == Step(old(View()), TileMove(id, cell))
    {
      hide Resolve, FindTile, MovedTo, SaveOf, Clamp;
      var tile := FindTile(base, id);
      if drag == Some(id) && tile.Some? {
        var x := Clamp(cell.x, 0, GRID_COLS - tile.value.box.w);
        var y := Clamp(cell.y, 0, MAX_ROWS);
        var next := ResolveLayout(MovedTo(base, id, Cell(x, y)), id);
        Store(next);
      }
    }

    method OnEndDrag()
      modifies `drag
      ensures View() == Step(old(View()), EndDrag)
    {
      drag := None;
    }

    method OnResizeDown(id: string)
      modifies `base, `resize
      ensures View() == Step(old(View()), ResizeDown(id))
    {
      var tile := FindTile(tiles, id);
      if tile.Some? {
        base, resize := tiles, Some(GripOn(tile.value));
      }
    }

    method OnResizeMove(dw: int, dh: int)
      modifies `tiles, `stored
      ensures View() == Step(old(View()), ResizeMove(dw, dh))
    {
      hide Resolve, FindTile, ResizedTo, SaveOf, Clamp;
      if resize.Some? {
        var r := resize.value;
        var tile := FindTile(base, r.id);
        if tile.Some? {
          var w := Clamp(r.startW + dw, r.minW, GRID_COLS - tile.value.box.x);
          var h := Clamp(r.startH + dh, r.minH, MAX_ROWS);
          var next := ResolveLayout(ResizedTo(base, r.id, w, h), r.id);
          Store(next);
        }
      }
    }

    method OnEndResize()
      modifies `resize
      ensures View() == Step(old(View()), EndResize)
    {
      resize := None;
    }
  }
}
