/**
 The picker offers only the kinds that are not on the page. Then there is always room, however far the tiles have been
 pushed down.
 */
module DashboardPicker {
  import opened Options
  import opened GridLayout
  import opened GridResolve
  import opened DashboardPage
  import opened DashboardRuns

  predicate Low(tiles: seq<Tile>) {
    forall i | 0 <= i < |tiles| :: tiles[i].box.h <= MAX_ROWS
  }

  predicate DistinctKinds(tiles: seq<Tile>) {
    forall i, j | 0 <= i < |tiles| && 0 <= j < |tiles| && i != j :: tiles[i].kind != tiles[j].kind
  }

  // ── room between few tiles ─────────────────────────────────────────────────

  /** Rows so far apart that a tile of at most 16 rows reaches the six rows from at most one of them. */
  function RowAt(k: nat): int {
    22 * k
  }

  predicate Blocks(t: Tile, k: nat) {
    t.box.y < RowAt(k) + 6 && t.box.y + t.box.h > RowAt(k)
  }

  lemma BlocksOnce(t: Tile, j: nat, k: nat)
    requires t.box.h <= MAX_ROWS && j != k
    ensures !(Blocks(t, j) && Blocks(t, k))
  {
  }

  /** Of more rows than tiles one is blocked by none. */
  lemma {:induction false} OneRowIsFree(tiles: seq<Tile>, ks: set<nat>) returns (k: nat)
    requires Low(tiles) && |ks| > |tiles|
    ensures k in ks && forall i | 0 <= i < |tiles| :: !Blocks(tiles[i], k)
    decreases |tiles|
  {
    if tiles == [] {
      k :| k in ks;
    } else {
      var before, last := tiles[..|tiles| - 1], tiles[|tiles| - 1];
      if j :| j in ks && Blocks(last, j) {
        k := OneRowIsFree(before, ks - {j});
        BlocksOnce(last, j, k);
      } else {
        k := OneRowIsFree(before, ks);
      }
      assert forall i | 0 <= i < |before| :: tiles[i] == before[i];
    }
  }

  lemma {:induction false} RowCount(n: nat) returns (ks: set<nat>)
    ensures |ks| == n && forall k | k in ks :: k < n
    decreases n
  {
    if n == 0 {
      ks := {};
    } else {
      var less := RowCount(n - 1);
      ks := less + {n - 1};
    }
  }

  /** Up to nine tiles of at most 16 rows, wherever they are, leave room for one more. */
  lemma FewTilesLeaveRoom(tiles: seq<Tile>, kind: string)
    requires Low(tiles) && |tiles| <= 9 && Registry(kind).Some?
    ensures HasRoom(tiles, kind)
  {
    var ks := RowCount(|tiles| + 1);
    var k := OneRowIsFree(tiles, ks);
    var def := Registry(kind).value;
    var c := Cell(0, RowAt(k));
    assert def.defaultW == 2 && def.defaultH <= 6;
    forall i | 0 <= i < |tiles|
      ensures !Collides(tiles[i].box, Box(c.x, c.y, def.defaultW, def.defaultH))
    {
      assert !Blocks(tiles[i], k);
    }
    assert Fits(tiles, def.defaultW, def.defaultH, c);
  }

  // ── one tile of each kind ──────────────────────────────────────────────────

  const KINDS := {"system-info", "interface-stats", "network-speed"}

  lemma {:induction false} KindsCount(tiles: seq<Tile>, kinds: set<string>)
    requires DistinctKinds(tiles) && forall i | 0 <= i < |tiles| :: tiles[i].kind in kinds
    ensures |tiles| <= |kinds|
    decreases |tiles|
  {
    if tiles != [] {
      var before, last := tiles[..|tiles| - 1], tiles[|tiles| - 1];
      forall i | 0 <= i < |before|
        ensures before[i].kind in kinds - {last.kind}
      {
        assert before[i] == tiles[i];
      }
      KindsCount(before, kinds - {last.kind});
    }
  }

  /** What the picker offers: kinds that are not on the page, under new ids. */
  predicate Offered(s: Session, e: Event) {
    e.Add? && Registry(e.kind).Some? ==>
      NewId(s, e.id) && forall i | 0 <= i < |s.tiles| :: s.tiles[i].kind != e.kind
  }

  predicate AllOffered(s: Session, events: seq<Event>)
    decreases events
  {
    events == [] || (Offered(s, events[0]) && AllOffered(Step(s, events[0]), events[1..]))
  }

  /** The layouts that runs from the default page go through. */
  predicate Plain(tiles: seq<Tile>) {
    Low(tiles) && DistinctKinds(tiles)
  }

  predicate Everyday(s: Session) {
    Valid(s) && Plain(s.tiles) && Plain(s.base)
  }

  lemma OfferedHasRoom(s: Session, kind: string)
    requires Everyday(s) && Registry(kind).Some? && forall i | 0 <= i < |s.tiles| :: s.tiles[i].kind != kind
    ensures HasRoom(s.tiles, kind)
  {
    hide HasRoom;
    forall i | 0 <= i < |s.tiles|
      ensures s.tiles[i].kind in KINDS
    {
      assert ValidTile(s.tiles[i]);
    }
    KindsCount(s.tiles, KINDS);
    FewTilesLeaveRoom(s.tiles, kind);
  }

  lemma {:induction false} OthersPlain(tiles: seq<Tile>, id: string)
    requires Plain(tiles)
    ensures Plain(Others(tiles, id))
    decreases tiles
  {
    if tiles != [] {
      var rest := Others(tiles[1..], id);
      assert Plain(tiles[1..]);
      OthersPlain(tiles[1..], id);
      forall i | 0 <= i < |rest|
        ensures rest[i].kind != tiles[0].kind
      {
        assert rest[i] in tiles[1..];
        var k :| 0 <= k < |tiles[1..]| && tiles[1..][k] == rest[i];
        assert tiles[k + 1] == rest[i];
      }
    }
  }

  /** Reshaping a tile to at most 16 rows and resolving changes no kind and no other height. */
  lemma ReshapePlain(base: seq<Tile>, id: string, f: Box -> Box)
    requires ValidLayout(base) && Plain(base)
    requires forall i | 0 <= i < |base| && base[i].id == id :: f(base[i].box).h <= MAX_ROWS
    ensures Plain(Resolve(Reshape(base, id, f), id))
  {
    hide Resolve, Collides, Disjoint;
    var shaped := Reshape(base, id, f);
    assert UniqueIds(shaped);
    ResolveCorrect(shaped, id);
    var out := Resolve(shaped, id);
    assert forall i | 0 <= i < |out| :: out[i].kind == base[i].kind && out[i].box.h == shaped[i].box.h;
  }

  lemma MovePlain(base: seq<Tile>, id: string, c: Cell)
    requires ValidLayout(base) && Plain(base)
    ensures Plain(Resolve(MovedTo(base, id, c), id))
  {
    hide Resolve, ValidLayout;
    ReshapePlain(base, id, (b: Box) => Box(c.x, c.y, b.w, b.h));
  }

  lemma ResizePlain(base: seq<Tile>, id: string, w: int, h: int)
    requires ValidLayout(base) && Plain(base) && h <= MAX_ROWS
    ensures Plain(Resolve(ResizedTo(base, id, w, h), id))
  {
    hide Resolve, ValidLayout;
    ReshapePlain(base, id, (b: Box) => Box(b.x, b.y, w, h));
  }

  lemma StepPlain(s: Session, e: Event)
    requires Everyday(s) && Offered(s, e)
    ensures Plain(Step(s, e).tiles) && Plain(Step(s, e).base)
  {
    hide Resolve, Opened, ValidLayout, FreeCell, SaveOf, MovedTo, ResizedTo, Persisted;
    match e
    case Add(kind, id) =>
      if Registry(kind).Some? {
        var next := Step(s, e).tiles;
        assert forall i | 0 <= i < |s.tiles| :: next[i] == s.tiles[i];
      }
    case Remove(id) => OthersPlain(s.tiles, id);
    case TileMove(id, cell) =>
      if s.drag == Some(id) && FindTile(s.base, id).Some? {
        MovePlain(s.base, id, DropCell(FindTile(s.base, id).value.box.w, cell));
      }
    case ResizeMove(dw, dh) =>
      if s.resize.Some? && FindTile(s.base, s.resize.value.id).Some? {
        var r := s.resize.value;
        var b := FindTile(s.base, r.id).value.box;
        ResizeValid(s.base, r, dw, dh);
        ResizePlain(s.base, r.id, Clamp(r.startW + dw, r.minW, GRID_COLS - b.x), Clamp(r.startH + dh, r.minH, MAX_ROWS));
      }
    case _ =>
  }

  /**
   Every run of the page that adds only what the picker offers keeps the layout valid, with at most one tile of
   each kind and none taller than 16 rows. No bound on how far tiles are pushed down is needed.
   */
  lemma {:induction false} PickerRunsStayValid(s: Session, events: seq<Event>)
    requires Everyday(s) && AllOffered(s, events)
    ensures Everyday(RunAll(s, events))
    decreases events
  {
    hide Everyday, Step, HasRoom;
    if events != [] {
      OfferedAdmissible(s, events[0]);
      StepEveryday(s, events[0]);
      PickerRunsStayValid(Step(s, events[0]), events[1..]);
    }
  }

  lemma OfferedAdmissible(s: Session, e: Event)
    requires Everyday(s) && Offered(s, e)
    ensures Admissible(s, e)
  {
    hide Everyday, HasRoom;
    if e.Add? && Registry(e.kind).Some? {
      OfferedHasRoom(s, e.kind);
    }
  }

  lemma StepEveryday(s: Session, e: Event)
    requires Everyday(s) && Offered(s, e) && Admissible(s, e)
    ensures Everyday(Step(s, e))
  {
    hide Valid, Step, Plain, Admissible;
    StepValid(s, e);
    StepPlain(s, e);
  }

  lemma DefaultEveryday()
    ensures Everyday(Open(None))
  {
    DefaultValid();
  }

  /** From the default page on, everything the handlers and the picker allow keeps the layout valid. */
  lemma DefaultRunsStayValid(events: seq<Event>)
    requires AllOffered(Open(None), events)
    ensures Valid(RunAll(Open(None), events)) && Plain(RunAll(Open(None), events).tiles)
  {
    hide Valid, AllOffered, RunAll, Open;
    DefaultEveryday();
    PickerRunsStayValid(Open(None), events);
  }
}
