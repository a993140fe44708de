/** The 4-column dashboard grid: overlap, the first free cell, and first-fit packing. */
module GridLayout {
  const GRID_COLS := 4
  const SCAN_ROWS := 200

  datatype Box = Box(x: int, y: int, w: int, h: int)
  datatype Tile = Tile(id: string, kind: string, box: Box)
  datatype Cell = Cell(x: int, y: int)

  function Clamp(v: int, lo: int, hi: int): (r: int)
    ensures lo <= hi ==> lo <= r <= hi && (lo <= v <= hi ==> r == v) && (v < lo ==> r == lo) && (v > hi ==> r == hi)
    ensures hi < lo ==> r == lo
  {
    var capped := if hi < v then hi else v;
    if lo > capped then lo else capped
  }

  predicate Collides(a: Box, b: Box) {
    a.x < b.x + b.w && a.x + a.w > b.x && a.y < b.y + b.h && a.y + a.h > b.y
  }

  predicate Covers(b: Box, x: int, y: int) {
    b.x <= x < b.x + b.w && b.y <= y < b.y + b.h
  }

  /** Boxes collide exactly when some cell of the grid belongs to both. */
  lemma CollideIffShared(a: Box, b: Box)
    requires a.w > 0 && a.h > 0 && b.w > 0 && b.h > 0
    ensures Collides(a, b) <==> exists x, y :: Covers(a, x, y) && Covers(b, x, y)
  {
    if Collides(a, b) {
      var x, y := if a.x > b.x then a.x else b.x, if a.y > b.y then a.y else b.y;
      assert Covers(a, x, y) && Covers(b, x, y);
    }
  }

  /** Nothing placed overlaps the box. */
  predicate Clear(placed: seq<Tile>, b: Box) {
    forall i | 0 <= i < |placed| :: !Collides(placed[i].box, b)
  }

  predicate Disjoint(tiles: seq<Tile>) {
    forall i, j | 0 <= i < |tiles| && 0 <= j < |tiles| && i != j :: !Collides(tiles[i].box, tiles[j].box)
  }

  predicate InGrid(b: Box) {
    0 <= b.x && 0 <= b.y && 1 <= b.w && 1 <= b.h && b.x + b.w <= GRID_COLS
  }

  predicate AllInGrid(tiles: seq<Tile>) {
    forall i | 0 <= i < |tiles| :: InGrid(tiles[i].box)
  }

  /** The lowest bottom edge. */
  function Bottom(tiles: seq<Tile>): (b: int)
    ensures b >= 0 && forall i | 0 <= i < |tiles| :: tiles[i].box.y + tiles[i].box.h <= b
    ensures b == 0 || exists i | 0 <= i < |tiles| :: tiles[i].box.y + tiles[i].box.h == b
  {
    if tiles == [] then 0
    else
      var t, above := tiles[|tiles| - 1].box, Bottom(tiles[..|tiles| - 1]);
      if t.y + t.h > above then t.y + t.h else above
  }

  // ── the first free cell ────────────────────────────────────────────────────

  /** A scanned cell at which a `w` by `h` block overlaps nothing. */
  predicate Fits(placed: seq<Tile>, w: int, h: int, c: Cell) {
    0 <= c.x <= GRID_COLS - w && 0 <= c.y < SCAN_ROWS && Clear(placed, Box(c.x, c.y, w, h))
  }

  /** Row-major order. */
  predicate Before(c: Cell, d: Cell) {
    c.y < d.y || (c.y == d.y && c.x < d.x)
  }

  /** The row-major least cell that fits, or the top-left cell when none does. */
  ghost predicate FirstFit(placed: seq<Tile>, w: int, h: int, c: Cell) {
    || (Fits(placed, w, h, c) && forall d | Before(d, c) :: !Fits(placed, w, h, d))
    || (c == Cell(0, 0) && forall d :: !Fits(placed, w, h, d))
  }

  method FindFreeCell(placed: seq<Tile>, w: int, h: int) returns (cell: Cell)
    ensures FirstFit(placed, w, h, cell)
  {
    var y := 0;
    while y < SCAN_ROWS
      invariant 0 <= y <= SCAN_ROWS
      invariant forall d: Cell | d.y < y :: !Fits(placed, w, h, d)
    {
      var x := 0;
      while x <= GRID_COLS - w
        invariant 0 <= x
        invariant forall d | Before(d, Cell(x, y)) :: !Fits(placed, w, h, d)
      {
        if Clear(placed, Box(x, y, w, h)) {
          return Cell(x, y);
        }
        assert !Fits(placed, w, h, Cell(x, y));
        forall d | Before(d, Cell(x + 1, y))
          ensures !Fits(placed, w, h, d)
        {
          assert Before(d, Cell(x, y)) || d == Cell(x, y);
        }
        x := x + 1;
      }
      forall d: Cell | d.y < y + 1
        ensures !Fits(placed, w, h, d)
      {
        assert d.x > GRID_COLS - w || Before(d, Cell(x, y));
      }
      y := y + 1;
    }
    return Cell(0, 0);
  }

  /** The same search on values, cell by cell from `c`. */
  function FreeFrom(placed: seq<Tile>, w: int, h: int, c: Cell): (r: Cell)
    requires 0 <= c.x && 0 <= c.y
    requires forall d | Before(d, c) :: !Fits(placed, w, h, d)
    ensures FirstFit(placed, w, h, r)
    decreases SCAN_ROWS - c.y, GRID_COLS - w - c.x
  {
    if c.y >= SCAN_ROWS then
      assert forall d :: Fits(placed, w, h, d) ==> Before(d, c);
      Cell(0, 0)
    else if c.x > GRID_COLS - w then
      assert forall d: Cell | Before(d, Cell(0, c.y + 1)) :: d.x > GRID_COLS - w || d.x < 0 || Before(d, c);
      FreeFrom(placed, w, h, Cell(0, c.y + 1))
    else if Clear(placed, Box(c.x, c.y, w, h)) then c
    else
      assert forall d | Before(d, Cell(c.x + 1, c.y)) :: Before(d, c) || d == c;
      FreeFrom(placed, w, h, Cell(c.x + 1, c.y))
  }

  function FreeCell(placed: seq<Tile>, w: int, h: int): (r: Cell)
    ensures FirstFit(placed, w, h, r)
  {
    FreeFrom(placed, w, h, Cell(0, 0))
  }

  /** There is one first fit, so the search on values finds the cell the loops find. */
  lemma FirstFitUnique(placed: seq<Tile>, w: int, h: int, c: Cell, d: Cell)
    requires FirstFit(placed, w, h, c) && FirstFit(placed, w, h, d)
    ensures c == d
  {
    assert c == d || Before(c, d) || Before(d, c);
  }

  /** Below everything placed there is room, so a bottom edge above row 200 leaves a cell to find. */
  lemma RoomBelow(placed: seq<Tile>, w: int, h: int)
    requires 0 <= w <= GRID_COLS && Bottom(placed) < SCAN_ROWS
    ensures Fits(placed, w, h, FreeCell(placed, w, h)) && FreeCell(placed, w, h).y <= Bottom(placed)
  {
    var below := Cell(0, Bottom(placed));
    assert Fits(placed, w, h, below);
    assert !Before(below, FreeCell(placed, w, h));
  }

  // ── packing ────────────────────────────────────────────────────────────────

  function Fitted(t: Tile): Tile {
    t.(box := Box(t.box.x, t.box.y, Clamp(t.box.w, 1, GRID_COLS), if t.box.h > 1 then t.box.h else 1))
  }

  function PutAtFree(placed: seq<Tile>, t: Tile): Tile {
    var b := Fitted(t).box;
    var c := FreeCell(placed, b.w, b.h);
    t.(box := Box(c.x, c.y, b.w, b.h))
  }

  function Pack(tiles: seq<Tile>): (placed: seq<Tile>)
    ensures |placed| == |tiles|
  {
    if tiles == [] then []
    else
      var before := Pack(tiles[..|tiles| - 1]);
      before + [PutAtFree(before, tiles[|tiles| - 1])]
  }

  method PackTiles(tiles: seq<Tile>) returns (placed: seq<Tile>)
    ensures placed == Pack(tiles)
  {
    placed := [];
    for i := 0 to |tiles|
      invariant placed == Pack(tiles[..i])
    {
      var t := tiles[i];
      var w := Clamp(t.box.w, 1, GRID_COLS);
      var h := if t.box.h > 1 then t.box.h else 1;
      var cell := FindFreeCell(placed, w, h);
      FirstFitUnique(placed, w, h, cell, FreeCell(placed, w, h));
      placed := placed + [t.(box := Box(cell.x, cell.y, w, h))];
      assert tiles[..i + 1][..i] == tiles[..i];
    }
    assert tiles[..|tiles|] == tiles;
  }

  function Heights(tiles: seq<Tile>): (sum: int)
    ensures sum >= |tiles|
  {
    if tiles == [] then 0 else Heights(tiles[..|tiles| - 1]) + Fitted(tiles[|tiles| - 1]).box.h
  }

  lemma DisjointMore(placed: seq<Tile>, t: Tile)
    requires Disjoint(placed) && Clear(placed, t.box)
    ensures Disjoint(placed + [t])
  {
  }

  /** One more tile lands clear of the others, at most its height below them. */
  lemma PackOne(before: seq<Tile>, t: Tile)
    requires Disjoint(before) && AllInGrid(before) && Bottom(before) < SCAN_ROWS
    ensures
      var p := PutAtFree(before, t);
      && Fits(before, p.box.w, p.box.h, Cell(p.box.x, p.box.y))
      && (forall d | Before(d, Cell(p.box.x, p.box.y)) :: !Fits(before, p.box.w, p.box.h, d))
      && Disjoint(before + [p]) && AllInGrid(before + [p])
      && Bottom(before + [p]) <= Bottom(before) + p.box.h
  {
    hide Fits, Collides, FreeCell, Disjoint;
    var p := PutAtFree(before, t);
    RoomBelow(before, p.box.w, p.box.h);
    FitsInGrid(before, p);
    DisjointMore(before, p);
    assert (before + [p])[..|before|] == before;
  }

  lemma NothingPacked()
    ensures Disjoint([]) && AllInGrid([]) && Bottom([]) == 0
  {
  }

  lemma FitsInGrid(before: seq<Tile>, p: Tile)
    requires Fits(before, p.box.w, p.box.h, Cell(p.box.x, p.box.y))
    ensures Clear(before, p.box) && 0 <= p.box.x && 0 <= p.box.y && p.box.x + p.box.w <= GRID_COLS
  {
  }

  /**
   Packed tiles keep their order, identity and fitted size, lie disjoint in the grid no lower than their summed
   heights, and each takes the first cell that its predecessors leave free - as long as the heights sum to at most 200.
   */
  lemma {:induction false} PackCorrect(tiles: seq<Tile>)
    requires Heights(tiles) <= SCAN_ROWS
    ensures Disjoint(Pack(tiles)) && AllInGrid(Pack(tiles))
    ensures Bottom(Pack(tiles)) <= Heights(tiles)
    ensures forall i | 0 <= i < |tiles| :: PackedAt(tiles, i)
    decreases |tiles|
  {
    hide Fits, Disjoint, AllInGrid, Bottom, FreeCell, Before, FirstFit;
    if tiles == [] {
      NothingPacked();
    } else {
      var last := tiles[|tiles| - 1];
      var rest := tiles[..|tiles| - 1];
      PackCorrect(rest);
      PackOne(Pack(rest), last);
      forall i | 0 <= i < |tiles|
        ensures PackedAt(tiles, i)
      {
        if i < |rest| {
          assert PackedAt(rest, i);
          assert Pack(tiles)[..i] == Pack(rest)[..i];
        } else {
          assert Pack(tiles)[..i] == Pack(rest);
        }
      }
    }
  }

  /** Tile `i` is in place: itself, at its fitted size, in the first cell free of the tiles before it. */
  ghost predicate PackedAt(tiles: seq<Tile>, i: nat)
    requires i < |tiles|
  {
    var out, fitted := Pack(tiles), Fitted(tiles[i]);
    var b := out[i].box;
    && out[i] == fitted.(box := Box(b.x, b.y, fitted.box.w, fitted.box.h))
    && Fits(out[..i], b.w, b.h, Cell(b.x, b.y))
    && (forall d | Before(d, Cell(b.x, b.y)) :: !Fits(out[..i], b.w, b.h, d))
  }
}
