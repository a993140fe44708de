/** A table's column layout: the stored order, drag reordering, resizing against the neighbour, and visibility. */
module ColumnLayout {
  import opened Options

  const MIN_COL := 60.0
  const DEFAULT_WIDTH := 120.0

  datatype Column = Column(key: string, minWidth: Option<real>)

  /** A resize in progress: the pair of columns and their widths and minima at its start. */
  datatype Grip = Grip(left: string, right: string, startX: real, startLeft: real, startRight: real,
                       leftMin: real, rightMin: real)

  datatype State = State(columns: seq<Column>, order: seq<string>, hidden: set<string>, widths: map<string, real>,
                         grip: Option<Grip>)

  datatype Event =
    | Columns(columns: seq<Column>)
    | Reorder(from: string, to: string)
    | Toggle(key: string)
    | ResizeDown(index: nat, x: real)
    | ResizeMove(x: real)
    | ResizeUp
    | Reset

  function KeysOf(columns: seq<Column>): (keys: seq<string>)
    ensures |keys| == |columns| && forall i | 0 <= i < |columns| :: keys[i] == columns[i].key
  {
    seq(|columns|, i requires 0 <= i < |columns| => columns[i].key)
  }

  predicate Distinct(keys: seq<string>) {
    forall i, j | 0 <= i < j < |keys| :: keys[i] != keys[j]
  }

  /** Two lists of the same keys, each key once. */
  ghost predicate Permutation(a: seq<string>, b: seq<string>) {
    Distinct(a) && Distinct(b) && forall k :: k in a <==> k in b
  }

  function Only(keys: seq<string>, known: seq<string>): (kept: seq<string>)
    ensures forall k :: k in kept <==> k in keys && k in known
    ensures Distinct(keys) ==> Distinct(kept)
    ensures (forall k | k in keys :: k in known) ==> kept == keys
  {
    if keys == [] then []
    else
      assert Distinct(keys) ==> Distinct(keys[1..]);
      (if keys[0] in known then [keys[0]] else []) + Only(keys[1..], known)
  }

  /** Appends the keys that are not there yet, in their order. */
  function WithNew(kept: seq<string>, keys: seq<string>): (all: seq<string>)
    ensures kept <= all && forall k :: k in all <==> k in kept || k in keys
    ensures Distinct(kept) <==> Distinct(all)
    ensures (forall k | k in keys :: k in kept) ==> all == kept
    decreases keys
  {
    if keys == [] then kept
    else if keys[0] in kept then WithNew(kept, keys[1..])
    else
      assert Distinct(kept) <==> Distinct(kept + [keys[0]]) by {
        assert forall i | 0 <= i < |kept| :: (kept + [keys[0]])[i] == kept[i];
      }
      WithNew(kept + [keys[0]], keys[1..])
  }

  /** The columns in display order: the stored order without unknown keys, then the new ones. */
  function OrderedKeys(order: seq<string>, keys: seq<string>): seq<string> {
    WithNew(Only(order, keys), keys)
  }

  method Reconcile(order: seq<string>, keys: seq<string>) returns (kept: seq<string>)
    ensures kept == OrderedKeys(order, keys)
  {
    kept := Only(order, keys);
    for i := 0 to |keys|
      invariant WithNew(kept, keys[i..]) == OrderedKeys(order, keys)
    {
      assert keys[i..][0] == keys[i] && keys[i..][1..] == keys[i + 1..];
      if keys[i] !in kept {
        kept := kept + [keys[i]];
      }
    }
  }

  /** Reconciling yields each current column exactly once if and only if no known key is stored twice. */
  lemma ReconciledIff(order: seq<string>, keys: seq<string>)
    requires Distinct(keys)
    ensures Permutation(OrderedKeys(order, keys), keys) <==> Distinct(Only(order, keys))
  {
  }

  /** A stored order with a known key twice displays that column twice. */
  lemma RepeatedKeyStaysTwice(key: string)
    ensures OrderedKeys([key, key], [key]) == [key, key] && !Permutation(OrderedKeys([key, key], [key]), [key])
  {
    assert [key, key][1..] == [key];
    assert Only([key, key], [key]) == [key, key];
    assert [key, key][0] == [key, key][1];
  }

  /** The order that is persisted is the one a reload displays. */
  lemma ReconcileTwice(order: seq<string>, keys: seq<string>)
    ensures OrderedKeys(OrderedKeys(order, keys), keys) == OrderedKeys(order, keys)
  {
    var shown := OrderedKeys(order, keys);
    assert Only(shown, keys) == shown;
  }

  // ── reordering ─────────────────────────────────────────────────────────────

  function IndexOf(keys: seq<string>, key: string): (r: Option<nat>)
    ensures r.Some? ==> r.value < |keys| && keys[r.value] == key && forall i | 0 <= i < r.value :: keys[i] != key
    ensures r.None? ==> key !in keys
  {
    if keys == [] then None
    else if keys[0] == key then Some(0)
    else
      var later := IndexOf(keys[1..], key);
      if later.Some? then
        assert forall i | 0 < i < later.value + 1 :: keys[i] == keys[1..][i - 1];
        Some(later.value + 1)
      else None
  }

  function Without(keys: seq<string>, i: nat): seq<string>
    requires i < |keys|
  {
    keys[..i] + keys[i + 1..]
  }

  /** The new stored order when the header `from` is dropped on the header `to`; `None` leaves it as it is. */
  function Dropped(keys: seq<string>, from: string, to: string): Option<seq<string>> {
    if from == "" || from == to then None
    else
      var fi := IndexOf(keys, from);
      if fi.None? then Some(keys)
      else
        var arr := Without(keys, fi.value);
        var ti := IndexOf(arr, to);
        if ti.None? then Some(arr) else Some(Inserted(arr, ti.value, from))
  }

  method ReorderColumn(keys: seq<string>, from: string, to: string) returns (order: Option<seq<string>>)
    ensures order == Dropped(keys, from, to)
  {
    if from == "" || from == to {
      return None;
    }
    var arr := keys;
    var fi := IndexOf(arr, from);
    if fi.None? {
      return Some(arr);
    }
    arr := arr[..fi.value] + arr[fi.value + 1..];
    var ti := IndexOf(arr, to);
    if ti.None? {
      return Some(arr);
    }
    arr := arr[..ti.value] + [from] + arr[ti.value..];
    return Some(arr);
  }

  lemma WithoutDistinct(keys: seq<string>, i: nat)
    requires Distinct(keys) && i < |keys|
    ensures Distinct(Without(keys, i)) && forall k :: k in Without(keys, i) <==> k in keys && k != keys[i]
  {
    var arr := Without(keys, i);
    forall k
      ensures k in arr <==> k in keys && k != keys[i]
    {
      if k in keys && k != keys[i] {
        var j :| 0 <= j < |keys| && keys[j] == k;
        assert arr[if j < i then j else j - 1] == k;
      }
    }
  }

  function Inserted(arr: seq<string>, i: nat, key: string): (out: seq<string>)
    requires i <= |arr|
    ensures |out| == |arr| + 1 && out[i] == key
    ensures forall j | 0 <= j < i :: out[j] == arr[j]
    ensures forall j | i < j < |out| :: out[j] == arr[j - 1]
  {
    arr[..i] + [key] + arr[i..]
  }

  lemma InsertedWithout(arr: seq<string>, i: nat, key: string)
    requires i <= |arr|
    ensures Without(Inserted(arr, i, key), i) == arr
  {
  }

  lemma InsertedKeys(arr: seq<string>, i: nat, key: string, k: string)
    requires i <= |arr|
    ensures k in Inserted(arr, i, key) <==> k in arr || k == key
  {
    hide Inserted;
    var out := Inserted(arr, i, key);
    if k in arr {
      var j :| 0 <= j < |arr| && arr[j] == k;
      assert out[if j < i then j else j + 1] == k;
    }
    if k in out && k != key {
      var j :| 0 <= j < |out| && out[j] == k;
      assert arr[if j < i then j else j - 1] == k;
    }
  }

  lemma InsertedDistinct(arr: seq<string>, i: nat, key: string)
    requires Distinct(arr) && key !in arr && i <= |arr|
    ensures Distinct(Inserted(arr, i, key))
  {
    hide Inserted;
    var out := Inserted(arr, i, key);
    forall m, n | 0 <= m < n < |out|
      ensures out[m] != out[n]
    {
      var a, b := if m < i then m else m - 1, if n < i then n else n - 1;
      if m != i && n != i {
        assert out[m] == arr[a] && out[n] == arr[b];
      } else if m == i {
        assert out[n] == arr[b];
      } else {
        assert out[m] == arr[a];
      }
    }
  }

  /**
   A drop on another column keeps every column, puts the dragged one immediately before its target, and leaves the
   others in their order.
   */
  lemma DropPlaces(keys: seq<string>, from: string, to: string)
    requires Distinct(keys) && from in keys && to in keys && from != to && from != ""
    ensures
      var out := Dropped(keys, from, to).value;
      && Dropped(keys, from, to).Some? && Permutation(out, keys)
      && (exists i | 0 <= i < |out| - 1 :: out[i] == from && out[i + 1] == to &&
            Without(out, i) == Without(keys, IndexOf(keys, from).value))
  {
    hide IndexOf, Without, Distinct, Inserted;
    var fi := IndexOf(keys, from).value;
    var arr := Without(keys, fi);
    WithoutDistinct(keys, fi);
    var ti := IndexOf(arr, to).value;
    var out := Inserted(arr, ti, from);
    InsertedWithout(arr, ti, from);
    InsertedDistinct(arr, ti, from);
    forall k
      ensures k in out <==> k in keys
    {
      InsertedKeys(arr, ti, from, k);
    }
    assert out[ti] == from && out[ti + 1] == arr[ti];
  }

  lemma DroppedDistinct(keys: seq<string>, from: string, to: string)
    requires Distinct(keys) && Dropped(keys, from, to).Some?
    ensures Distinct(Dropped(keys, from, to).value)
  {
    hide IndexOf, Without, Distinct, Inserted;
    var fi := IndexOf(keys, from);
    if fi.Some? {
      WithoutDistinct(keys, fi.value);
      var arr := Without(keys, fi.value);
      var ti := IndexOf(arr, to);
      if ti.Some? {
        InsertedDistinct(arr, ti.value, from);
      }
    }
  }

  // ── resizing and visibility ────────────────────────────────────────────────

  function Max(a: real, b: real): real { if a > b then a else b }
  function Min(a: real, b: real): real { if a < b then a else b }

  /** How far the boundary between the pair moves when the pointer is at `x`. */
  function Shift(g: Grip, x: real): real {
    Min(Max(x - g.startX, -(g.startLeft - g.leftMin)), g.startRight - g.rightMin)
  }

  function Resized(g: Grip, widths: map<string, real>, x: real): map<string, real> {
    widths[g.left := g.startLeft + Shift(g, x)][g.right := g.startRight - Shift(g, x)]
  }

  method MoveBoundary(g: Grip, widths: map<string, real>, x: real) returns (out: map<string, real>)
    ensures out == Resized(g, widths, x)
  {
    var delta := x - g.startX;
    delta := Max(delta, -(g.startLeft - g.leftMin));
    delta := Min(delta, g.startRight - g.rightMin);
    out := widths[g.left := g.startLeft + delta][g.right := g.startRight - delta];
  }

  function Visible(s: State): seq<string> {
    NotHidden(OrderedKeys(s.order, KeysOf(s.columns)), s.hidden)
  }

  function NotHidden(keys: seq<string>, hidden: set<string>): (shown: seq<string>)
    ensures forall k :: k in shown <==> k in keys && k !in hidden
    ensures Distinct(keys) ==> Distinct(shown)
  {
    if keys == [] then []
    else
      assert Distinct(keys) ==> Distinct(keys[1..]);
      (if keys[0] !in hidden then [keys[0]] else []) + NotHidden(keys[1..], hidden)
  }

  function MinWidth(columns: seq<Column>, key: string): real {
    if columns == [] then MIN_COL
    else if columns[0].key == key then (if columns[0].minWidth.Some? then columns[0].minWidth.value else MIN_COL)
    else MinWidth(columns[1..], key)
  }

  function WidthOf(widths: map<string, real>, key: string): real {
    if key in widths then widths[key] else DEFAULT_WIDTH
  }

  function GripOn(s: State, index: nat, x: real): Grip
    requires index + 1 < |Visible(s)|
  {
    var left, right := Visible(s)[index], Visible(s)[index + 1];
    Grip(left, right, x, WidthOf(s.widths, left), WidthOf(s.widths, right),
         MinWidth(s.columns, left), MinWidth(s.columns, right))
  }

  function Toggled(s: State, key: string): set<string> {
    if key in s.hidden then s.hidden - {key}
    else if |Visible(s)| > 1 then s.hidden + {key}
    else s.hidden
  }

  function Step(s: State, e: Event): State {
    match e
    case Columns(columns) => s.(columns := columns)
    case Reorder(from, to) =>
      var order := Dropped(OrderedKeys(s.order, KeysOf(s.columns)), from, to);
      if order.Some? then s.(order := order.value) else s
    case Toggle(key) => s.(hidden := Toggled(s, key))
    case ResizeDown(index, x) => if index + 1 < |Visible(s)| then s.(grip := Some(GripOn(s, index, x))) else s
    case ResizeMove(x) => if s.grip.Some? then s.(widths := Resized(s.grip.value, s.widths, x)) else s
    case ResizeUp => s.(grip := None)
    case Reset => s.(order := KeysOf(s.columns), hidden := {}, widths := map[])
  }

  function RunAll(s: State, events: seq<Event>): State
    decreases events
  {
    if events == [] then s else RunAll(Step(s, events[0]), events[1..])
  }

  /** The table component's layout state and the handlers that reassign it. */
  class Table {
    var columns: seq<Column>
    var order: seq<string>
    var hidden: set<string>
    var widths: map<string, real>
    var grip: Option<Grip>

    function View(): State
      reads this
    {
      State(columns, order, hidden, widths, grip)
    }

    constructor (columns: seq<Column>, order: Option<seq<string>>, hidden: set<string>, widths: map<string, real>)
      ensures View() == State(columns, if order.Some? then order.value else KeysOf(columns), hidden, widths, None)
    {
      this.columns, this.hidden, this.widths, this.grip := columns, hidden, widths, None;
      this.order := if order.Some? then order.value else KeysOf(columns);
    }

    method OnDrop(from: string, to: string)
      modifies `order
      ensures View() == Step(old(View()), Reorder(from, to))
    {
      var shown := Reconcile(order, KeysOf(columns));
      var next := ReorderColumn(shown, from, to);
      if next.Some? {
        order := next.value;
      }
    }

    method OnToggle(key: string)
      modifies `hidden
      ensures View() == Step(old(View()), Toggle(key))
    {
      if key in hidden {
        hidden := hidden - {key};
      } else if |Visible(View())| > 1 {
        hidden := hidden + {key};
      }
    }

    method OnResizeDown(index: nat, x: real)
      modifies `grip
      ensures View() == Step(old(View()), ResizeDown(index, x))
    {
      if index + 1 < |Visible(View())| {
        grip := Some(GripOn(View(), index, x));
      }
    }

    method OnResizeMove(x: real)
      modifies `widths
      ensures View() == Step(old(View()), ResizeMove(x))
    {
      if grip.Some? {
        widths := MoveBoundary(grip.value, widths, x);
      }
    }

    method OnResizeUp()
      modifies `grip
      ensures View() == Step(old(View()), ResizeUp)
    {
      grip := None;
    }

    method ResetLayout()
      modifies `order, `hidden, `widths
      ensures View() == Step(old(View()), Reset)
    {
      order, hidden, widths := KeysOf(columns), {}, map[];
    }
  }

  /** Each of two columns keeps its minimum if and only if their minima fit side by side; the right one always does. */
  lemma ResizeKeepsMinimaIff(g: Grip, widths: map<string, real>, x: real)
    requires g.left != g.right
    ensures
      var out := Resized(g, widths, x);
      && g.left in out && g.right in out
      && out[g.left] + out[g.right] == g.startLeft + g.startRight
      && out[g.right] >= g.rightMin
      && (out[g.left] >= g.leftMin <==> g.leftMin + g.rightMin <= g.startLeft + g.startRight)
      && (forall k | k in widths && k != g.left && k != g.right :: k in out && out[k] == widths[k])
  {
  }

  /** The boundary follows the pointer as far as the minima allow, and stops there. */
  lemma ResizeFollowsPointer(g: Grip, widths: map<string, real>, x: real)
    requires g.left != g.right && g.leftMin + g.rightMin <= g.startLeft + g.startRight
    ensures
      var out, moved := Resized(g, widths, x), x - g.startX;
      && (g.startLeft + moved >= g.leftMin && g.startRight - moved >= g.rightMin ==>
            out[g.left] == g.startLeft + moved && out[g.right] == g.startRight - moved)
      && (g.startLeft + moved <= g.leftMin ==> out[g.left] == g.leftMin)
      && (g.startRight - moved <= g.rightMin ==> out[g.right] == g.rightMin)
  {
  }

  /** A column's minimum is its own, or 60 if it has none. */
  lemma {:induction false} MinimumOf(columns: seq<Column>, i: nat)
    requires Distinct(KeysOf(columns)) && i < |columns|
    ensures MinWidth(columns, columns[i].key) ==
            if columns[i].minWidth.Some? then columns[i].minWidth.value else 60.0
    decreases i
  {
    if i > 0 {
      assert KeysOf(columns)[0] != KeysOf(columns)[i];
      assert KeysOf(columns[1..]) == KeysOf(columns)[1..];
      MinimumOf(columns[1..], i - 1);
    }
  }

  /** A grip holds two neighbours at their widths, 120 where none was set, and with their minima. */
  lemma GripHolds(s: State, index: nat, x: real)
    ensures index + 1 >= |Visible(s)| ==> Step(s, ResizeDown(index, x)) == s
    ensures index + 1 < |Visible(s)| ==>
              Step(s, ResizeDown(index, x)).grip.Some? &&
              var g, left, right := Step(s, ResizeDown(index, x)).grip.value, Visible(s)[index], Visible(s)[index + 1];
              && g.left == left && g.right == right && g.startX == x
              && g.startLeft == (if left in s.widths then s.widths[left] else 120.0)
              && g.startRight == (if right in s.widths then s.widths[right] else 120.0)
              && g.leftMin == MinWidth(s.columns, left) && g.rightMin == MinWidth(s.columns, right)
  {
    hide Visible, MinWidth;
  }

  /** After the release, pointer moves change nothing. */
  lemma {:induction false} ReleasedResizeIsOver(s: State, xs: seq<real>)
    ensures RunAll(Step(s, ResizeUp), MovesTo(xs)) == Step(s, ResizeUp)
    decreases xs
  {
    var es := MovesTo(xs);
    if xs != [] {
      assert es[1..] == MovesTo(xs[1..]);
      ReleasedResizeIsOver(s, xs[1..]);
      assert Step(Step(s, ResizeUp), es[0]) == Step(s, ResizeUp);
    }
  }

  /** Two columns of width 50 that both demand 60: taking hold of their boundary leaves the left one with 40. */
  lemma TightPairBreaksLeftMinimum()
    ensures Step(Step(TightPair(), ResizeDown(0, 0.0)), ResizeMove(0.0)).widths == map["a" := 40.0, "b" := 60.0]
  {
    hide GripOn, Visible, Dropped, Toggled, KeysOf, OrderedKeys, NotHidden, Only, WithNew, MinWidth, WidthOf;
    TightGrip();
  }

  function TightPair(): State {
    State([Column("a", Some(60.0)), Column("b", Some(60.0))], ["a", "b"], {}, map["a" := 50.0, "b" := 50.0], None)
  }

  lemma TightGrip()
    ensures Step(TightPair(), ResizeDown(0, 0.0)).grip == Some(Grip("a", "b", 0.0, 50.0, 50.0, 60.0, 60.0))
  {
    var s := TightPair();
    assert KeysOf(s.columns) == s.order;
    assert Only(s.order, s.order) == s.order;
    assert NotHidden(s.order[1..], {}) == s.order[1..];
    assert s.columns[1..][0] == s.columns[1];
  }

  function MovesTo(xs: seq<real>): (es: seq<Event>)
    ensures |es| == |xs| && forall i | 0 <= i < |xs| :: es[i] == ResizeMove(xs[i])
  {
    seq(|xs|, i requires 0 <= i < |xs| => ResizeMove(xs[i]))
  }

  /** The widths after a drag of the boundary depend on its start and its last position only. */
  lemma {:induction false} ResizeForgetsPath(s: State, xs: seq<real>)
    requires s.grip.Some? && s.grip.value.left != s.grip.value.right && xs != []
    ensures RunAll(s, MovesTo(xs)) == s.(widths := Resized(s.grip.value, s.widths, xs[|xs| - 1]))
    decreases xs
  {
    var es := MovesTo(xs);
    var next := Step(s, es[0]);
    if |xs| == 1 {
      assert es[1..] == [];
      assert RunAll(next, []) == next;
    } else {
      assert es[1..] == MovesTo(xs[1..]);
      ResizeForgetsPath(next, xs[1..]);
      var g, last := s.grip.value, xs[|xs| - 1];
      assert Resized(g, Resized(g, s.widths, xs[0]), last) == Resized(g, s.widths, last);
    }
  }

  /**
   Back where the drag began both widths are as before exactly when the right column had its minimum then, and the left
   one had its own too or the right one had nothing to give.
   */
  lemma ResizeBackIff(g: Grip, widths: map<string, real>)
    requires g.left != g.right && WidthOf(widths, g.left) == g.startLeft && WidthOf(widths, g.right) == g.startRight
    ensures
      var out := Resized(g, widths, g.startX);
      (out[g.left] == g.startLeft && out[g.right] == g.startRight) <==>
      g.startRight >= g.rightMin && (g.startLeft >= g.leftMin || g.startRight == g.rightMin)
  {
  }

  // ── whole runs ─────────────────────────────────────────────────────────────

  ghost predicate Valid(s: State) {
    Distinct(KeysOf(s.columns)) && Distinct(s.order)
  }

  /** Columns come with distinct keys. */
  ghost predicate Admissible(events: seq<Event>) {
    forall i | 0 <= i < |events| && events[i].Columns? :: Distinct(KeysOf(events[i].columns))
  }

  lemma StepValid(s: State, e: Event)
    requires Valid(s) && (e.Columns? ==> Distinct(KeysOf(e.columns)))
    ensures Valid(Step(s, e))
    ensures Permutation(OrderedKeys(s.order, KeysOf(s.columns)), KeysOf(s.columns))
    ensures Visible(s) != [] && !e.Columns? ==> Visible(Step(s, e)) != []
  {
    var keys := KeysOf(s.columns);
    ReconciledIff(s.order, keys);
    var shown := OrderedKeys(s.order, keys);
    match e
    case Reorder(from, to) =>
      if Dropped(shown, from, to).Some? {
        DroppedDistinct(shown, from, to);
        SameVisible(s, Step(s, e));
      }
    case Toggle(key) =>
      if Visible(s) != [] {
        ToggleKeepsOne(s, key);
      }
    case Reset =>
      if Visible(s) != [] {
        assert Visible(s)[0] in shown;
        assert Visible(s)[0] in Visible(Step(s, e));
      }
    case _ =>
  }

  /** Which columns are visible does not depend on the order. */
  lemma SameVisible(s: State, t: State)
    requires t.columns == s.columns && t.hidden == s.hidden
    ensures forall k :: k in Visible(s) <==> k in Visible(t)
    ensures Visible(s) != [] ==> Visible(t) != []
  {
    if Visible(s) != [] {
      assert Visible(s)[0] in Visible(t);
    }
  }

  /** Hiding a column never hides the last one. */
  lemma ToggleKeepsOne(s: State, key: string)
    requires Valid(s) && Visible(s) != []
    ensures Visible(Step(s, Toggle(key))) != []
    ensures forall k | k != key :: k in Visible(Step(s, Toggle(key))) <==> k in Visible(s)
  {
    var shown := Visible(s);
    var after := Visible(Step(s, Toggle(key)));
    if key in s.hidden {
      assert shown[0] in after;
    } else if |shown| > 1 {
      assert shown[0] != shown[1];
      assert shown[0] in after || shown[1] in after;
    }
  }

  /** Each event changes its own part of the layout only; what is stored for other columns stays. */
  lemma EventsKeepApart(s: State, e: Event)
    ensures
      var after := Step(s, e);
      match e
      case Columns(columns) => after == s.(columns := columns)
      case Reorder(_, _) => after == s.(order := after.order)
      case Toggle(key) => after == s.(hidden := after.hidden) && after.hidden - {key} == s.hidden - {key}
      case ResizeDown(_, _) => after == s.(grip := after.grip)
      case ResizeMove(_) => after == s.(widths := after.widths)
      case ResizeUp => after == s.(grip := None)
      case Reset => after == s.(order := after.order, hidden := {}, widths := map[])
  {
    hide Dropped, OrderedKeys, Visible, Resized;
  }

  /** After a drop the columns are shown with the dragged one at its new place. */
  lemma ReorderShows(s: State, from: string, to: string)
    requires Valid(s)
    ensures
      var keys := KeysOf(s.columns);
      var shown := OrderedKeys(s.order, keys);
      var dropped := Dropped(shown, from, to);
      && (dropped.None? <==> from == "" || from == to)
      && (dropped.None? || from !in shown ==> OrderedKeys(Step(s, Reorder(from, to)).order, keys) == shown)
      && (dropped.Some? && from in shown && to in shown ==>
            OrderedKeys(Step(s, Reorder(from, to)).order, keys) == dropped.value)
  {
    hide OrderedKeys, Dropped, KeysOf;
    var keys := KeysOf(s.columns);
    var shown := OrderedKeys(s.order, keys);
    ReconcileTwice(s.order, keys);
    ShownKeys(s.order, keys);
    DropsWhen(shown, from, to);
    if from in shown && to in shown && Dropped(shown, from, to).Some? {
      DropPlaces(shown, from, to);
      AllShown(Dropped(shown, from, to).value, keys);
    }
  }

  lemma DropsWhen(keys: seq<string>, from: string, to: string)
    ensures Dropped(keys, from, to).None? <==> from == "" || from == to
    ensures from !in keys && Dropped(keys, from, to).Some? ==> Dropped(keys, from, to).value == keys
  {
  }

  lemma ShownKeys(order: seq<string>, keys: seq<string>)
    ensures forall k :: k in OrderedKeys(order, keys) <==> k in keys
    ensures Distinct(order) ==> Distinct(OrderedKeys(order, keys))
  {
  }

  /** An order of exactly the current columns is shown as it is. */
  lemma AllShown(order: seq<string>, keys: seq<string>)
    requires forall k :: k in order <==> k in keys
    ensures OrderedKeys(order, keys) == order
  {
    assert Only(order, keys) == order;
  }

  /** Toggling a column shows it when it was hidden and hides it when it was shown, unless it is the only one shown. */
  lemma ToggleFlips(s: State, key: string)
    requires Valid(s) && key in KeysOf(s.columns)
    ensures Visible(s) == [key] ==> Step(s, Toggle(key)) == s
    ensures Visible(s) != [key] ==> (key in Visible(Step(s, Toggle(key))) <==> key !in Visible(s))
  {
    hide Only, WithNew, NotHidden, KeysOf;
    var shown := Visible(s);
    if key !in s.hidden && |shown| <= 1 {
      assert key in shown;
      assert shown == [key];
    }
  }

  /** A reset shows all columns, in the order they are given. */
  lemma ResetShowsAll(s: State)
    ensures
      var after := Step(s, Reset);
      Visible(after) == KeysOf(s.columns) && after.columns == s.columns && after.widths == map[]
  {
    hide OrderedKeys, NotHidden, KeysOf;
    KeysThemselves(KeysOf(s.columns));
    NoneHidden(KeysOf(s.columns));
  }

  lemma KeysThemselves(keys: seq<string>)
    ensures OrderedKeys(keys, keys) == keys
  {
    assert Only(keys, keys) == keys;
  }

  lemma {:induction false} NoneHidden(keys: seq<string>)
    ensures NotHidden(keys, {}) == keys
    decreases keys
  {
    if keys != [] {
      NoneHidden(keys[1..]);
    }
  }

  /**
   Over every run of reorders, resizes, toggles and changes of the column set, the displayed order is a permutation of
   the current columns; and while the column set stays, some column stays visible.
   */
  lemma {:induction false} RunsKeepOrder(s: State, events: seq<Event>)
    requires Valid(s) && Admissible(events)
    ensures
      var end := RunAll(s, events);
      && Valid(end) && Permutation(OrderedKeys(end.order, KeysOf(end.columns)), KeysOf(end.columns))
      && (Visible(s) != [] && (forall i | 0 <= i < |events| :: !events[i].Columns?) ==> Visible(end) != [])
    decreases events
  {
    if events == [] {
      ReconciledIff(s.order, KeysOf(s.columns));
    } else {
      StepValid(s, events[0]);
      assert forall i | 0 <= i < |events[1..]| :: events[1..][i] == events[i + 1];
      RunsKeepOrder(Step(s, events[0]), events[1..]);
    }
  }
}
