/**
 * The world fade: the ground tilemap is eroded one ring at a time. Each layer lists the
 * perimeter of the current bounding box of the ground, clears those cells in an arbitrary
 * order, re-tiles the four orthogonal neighbours of every cleared cell, and then moves the
 * four border colliders inward.
 */
module WorldFade {
  import opened Grid

  datatype Option<T> = None | Some(value: T)

  /** The twelve border tiles a season provides (groundRightAloneTile ... groundBottomTile). */
  datatype Variant =
    | RightAlone | BottomRight | TopRight | Right
    | TopAlone | TopLeft | Top
    | LeftAlone | BottomLeft | Left
    | BottomAlone | Bottom

  /** A tile on the ground tilemap: whatever ground the world was laid with, or a border tile. */
  datatype Tile = Fill(id: nat) | Border(variant: Variant)

  /** The ground tilemap. A cell holds a tile exactly when it is a key; an absent cell reads as empty. */
  type Tilemap = map<Cell, Tile>

  predicate IsEmpty(ground: Tilemap, x: int, y: int) {
    Cell(x, y) !in ground
  }

  /** All four orthogonal neighbours of (x, y) hold a tile. */
  predicate Enclosed(ground: Tilemap, x: int, y: int) {
    !IsEmpty(ground, x + 1, y) && !IsEmpty(ground, x, y + 1) &&
    !IsEmpty(ground, x - 1, y) && !IsEmpty(ground, x, y - 1)
  }

  /**
   * What each border tile depicts: the neighbours that must be empty, and for the plain edges
   * the neighbours that must hold ground. This is the meaning of the season's tile assets,
   * stated independently of the decision tree that picks them.
   */
  predicate Depicts(v: Variant, ground: Tilemap, x: int, y: int) {
    var right, top, left, bottom :=
      IsEmpty(ground, x + 1, y), IsEmpty(ground, x, y + 1), IsEmpty(ground, x - 1, y), IsEmpty(ground, x, y - 1);
    match v
    case RightAlone => right && top && bottom
    case TopAlone => top && left && right
    case LeftAlone => left && top && bottom
    case BottomAlone => bottom && left && right
    case TopRight => top && right
    case TopLeft => top && left
    case BottomRight => bottom && right
    case BottomLeft => bottom && left
    case Right => right && !top && !bottom
    case Top => top && !left && !right
    case Left => left && !top && !bottom
    case Bottom => bottom && !left && !right
  }

  /**
   * The auto-tiling decision for the cell (x, y): the border tile to write there, or None when
   * nothing is written. Neighbours are checked in the order right, top, left, bottom and the
   * first empty one decides the family of the tile.
   */
  function RecomputeTile(ground: Tilemap, x: int, y: int): (r: Option<Variant>)
    // nothing is written into an empty cell, nor into a cell whose four neighbours all hold ground
    ensures r == None <==> IsEmpty(ground, x, y) || Enclosed(ground, x, y)
    // the tile written always shows the empty sides it is drawn for
    ensures r.Some? ==> Depicts(r.value, ground, x, y)
    // a missing right neighbour selects the right family, whatever the left neighbour is
    ensures !IsEmpty(ground, x, y) && IsEmpty(ground, x + 1, y) ==>
              (IsEmpty(ground, x, y + 1) && IsEmpty(ground, x, y - 1) ==> r == Some(RightAlone)) &&
              (!IsEmpty(ground, x, y + 1) && IsEmpty(ground, x, y - 1) ==> r == Some(BottomRight)) &&
              (IsEmpty(ground, x, y + 1) && !IsEmpty(ground, x, y - 1) ==> r == Some(TopRight)) &&
              (!IsEmpty(ground, x, y + 1) && !IsEmpty(ground, x, y - 1) ==> r == Some(Right))
    // with the right neighbour present, a missing top neighbour selects the top family
    ensures !IsEmpty(ground, x, y) && !IsEmpty(ground, x + 1, y) && IsEmpty(ground, x, y + 1) ==>
              r == if IsEmpty(ground, x - 1, y) then Some(TopLeft) else Some(Top)
    // with right and top present, a missing left neighbour selects the left family
    ensures !IsEmpty(ground, x, y) && !IsEmpty(ground, x + 1, y) && !IsEmpty(ground, x, y + 1) && IsEmpty(ground, x - 1, y) ==>
              r == if IsEmpty(ground, x, y - 1) then Some(BottomLeft) else Some(Left)
    // with right, top and left present, a missing bottom neighbour selects the plain bottom edge
    ensures !IsEmpty(ground, x, y) && !IsEmpty(ground, x + 1, y) && !IsEmpty(ground, x, y + 1) && !IsEmpty(ground, x - 1, y) && IsEmpty(ground, x, y - 1) ==>
              r == Some(Bottom)
    // the top, left and bottom "alone" tiles can never be chosen
    ensures r != Some(TopAlone) && r != Some(LeftAlone) && r != Some(BottomAlone)
  {
    if IsEmpty(ground, x, y) then None
    else if IsEmpty(ground, x + 1, y) then
      if IsEmpty(ground, x, y - 1) && IsEmpty(ground, x, y + 1) then Some(RightAlone)
      else if IsEmpty(ground, x, y - 1) then Some(BottomRight)
      else if IsEmpty(ground, x, y + 1) then Some(TopRight)
      else Some(Right)
    else if IsEmpty(ground, x, y + 1) then
      if IsEmpty(ground, x - 1, y) && IsEmpty(ground, x + 1, y) then Some(TopAlone)
      else if IsEmpty(ground, x - 1, y) then Some(TopLeft)
      else if IsEmpty(ground, x + 1, y) then Some(TopRight)
      else Some(Top)
    else if IsEmpty(ground, x - 1, y) then
      if IsEmpty(ground, x, y - 1) && IsEmpty(ground, x, y + 1) then Some(LeftAlone)
      else if IsEmpty(ground, x, y - 1) then Some(BottomLeft)
      else if IsEmpty(ground, x, y + 1) then Some(TopLeft)
      else Some(Left)
    else if IsEmpty(ground, x, y - 1) then
      if IsEmpty(ground, x - 1, y) && IsEmpty(ground, x + 1, y) then Some(BottomAlone)
      else if IsEmpty(ground, x - 1, y) then Some(BottomLeft)
      else if IsEmpty(ground, x + 1, y) then Some(BottomRight)
      else Some(Bottom)
    else None
  }

  /** The tilemap after RecomputeTile(x, y) has written its decision (SetToTile). */
  function Retiled(ground: Tilemap, x: int, y: int): Tilemap {
    match RecomputeTile(ground, x, y)
    case None => ground
    case Some(v) => ground[Cell(x, y) := Border(v)]
  }

  /** Re-tiling never changes which cells are empty and touches no cell but (x, y). */
  lemma RetiledFrame(ground: Tilemap, x: int, y: int)
    ensures Retiled(ground, x, y).Keys == ground.Keys
    ensures forall c | c in ground && c != Cell(x, y) :: Retiled(ground, x, y)[c] == ground[c]
  {
  }

  /** A cell whose four neighbours all hold ground, or that is empty itself, is left as it is. */
  lemma RetiledEnclosed(ground: Tilemap, x: int, y: int)
    requires IsEmpty(ground, x, y) || Enclosed(ground, x, y)
    ensures Retiled(ground, x, y) == ground
  {
  }

  /** One of the four orthogonal neighbours of `c` is in `cells`. */
  predicate Touches(c: Cell, cells: set<Cell>) {
    Cell(c.x + 1, c.y) in cells || Cell(c.x - 1, c.y) in cells ||
    Cell(c.x, c.y + 1) in cells || Cell(c.x, c.y - 1) in cells
  }

  /** The cell holds the border tile that the decision tree picks for its present neighbourhood. */
  predicate Settled(ground: Tilemap, c: Cell) {
    c in ground && RecomputeTile(ground, c.x, c.y).Some? &&
    ground[c] == Border(RecomputeTile(ground, c.x, c.y).value)
  }

  /** The decision depends on nothing but which cells are empty. */
  lemma RecomputeTileReadsEmptiness(g1: Tilemap, g2: Tilemap, x: int, y: int)
    requires g1.Keys == g2.Keys
    ensures RecomputeTile(g1, x, y) == RecomputeTile(g2, x, y)
  {
  }

  /** The bounding box of the ground, maximum coordinates exclusive. */
  datatype WorldBoundaries = WorldBoundaries(minX: int, minY: int, maxX: int, maxY: int)

  predicate InBox(b: WorldBoundaries, c: Cell) {
    InRect(c, b.minX, b.maxX, b.minY, b.maxY)
  }

  /**
   * The box is the tightest one around the non-empty cells: every tile lies inside and each of
   * the four sides touches a tile. An empty tilemap has a box of zero width and height.
   */
  predicate TightBounds(ground: Tilemap, b: WorldBoundaries) {
    if ground == map[] then b.minX == b.maxX && b.minY == b.maxY
    else
      (forall c | c in ground :: InBox(b, c)) &&
      (exists c | c in ground :: c.x == b.minX) && (exists c | c in ground :: c.x == b.maxX - 1) &&
      (exists c | c in ground :: c.y == b.minY) && (exists c | c in ground :: c.y == b.maxY - 1)
  }

  /**
   * The edge positions of a box, in the order they are listed: the full columns at minX and
   * maxX - 1, then the rows at minY and maxY - 1 without their first cell.
   */
  function EdgeList(b: WorldBoundaries): seq<Cell> {
    Column(b.minX, b.minY, b.maxY) + Column(b.maxX - 1, b.minY, b.maxY) +
    Row(b.minY, b.minX + 1, b.maxX) + Row(b.maxY - 1, b.minX + 1, b.maxX)
  }

  /** The cell lies on the perimeter of the box as the edge enumeration draws it. */
  predicate OnPerimeter(b: WorldBoundaries, c: Cell) {
    ((c.x == b.minX || c.x == b.maxX - 1) && b.minY <= c.y < b.maxY) ||
    ((c.y == b.minY || c.y == b.maxY - 1) && b.minX + 1 <= c.x < b.maxX)
  }

  /** The cells a list holds, each once. */
  function Elements(s: seq<Cell>): set<Cell> {
    set c | c in s
  }

  function EdgeSet(b: WorldBoundaries): set<Cell> {
    Elements(EdgeList(b))
  }

  /** Every listed position is on the perimeter and every perimeter cell is listed. */
  lemma EdgeListCells(b: WorldBoundaries)
    ensures forall c :: c in EdgeList(b) <==> OnPerimeter(b, c)
  {
    forall c ensures c in EdgeList(b) <==> OnPerimeter(b, c) {
      EdgeCount(b, c);
    }
  }

  lemma EdgeListParts(b: WorldBoundaries)
    ensures EdgeList(b) == Column(b.minX, b.minY, b.maxY) + Column(b.maxX - 1, b.minY, b.maxY) +
                           Row(b.minY, b.minX + 1, b.maxX) + Row(b.maxY - 1, b.minX + 1, b.maxX)
  {
  }

  /** A cell's occurrences in the edge list are its occurrences in the two columns and two rows. */
  lemma EdgeCountParts(b: WorldBoundaries, c: Cell)
    ensures multiset(EdgeList(b))[c] ==
      multiset(Column(b.minX, b.minY, b.maxY))[c] + multiset(Column(b.maxX - 1, b.minY, b.maxY))[c] +
      multiset(Row(b.minY, b.minX + 1, b.maxX))[c] + multiset(Row(b.maxY - 1, b.minX + 1, b.maxX))[c]
  {
    EdgeListParts(b);
    CountConcat(Column(b.minX, b.minY, b.maxY), Column(b.maxX - 1, b.minY, b.maxY),
      Row(b.minY, b.minX + 1, b.maxX), Row(b.maxY - 1, b.minX + 1, b.maxX), c);
  }

  /** How often the enumeration lists a cell: once per column and row it lies in. */
  lemma EdgeCount(b: WorldBoundaries, c: Cell)
    ensures multiset(EdgeList(b))[c] ==
      (if c.x == b.minX && b.minY <= c.y < b.maxY then 1 else 0) +
      (if c.x == b.maxX - 1 && b.minY <= c.y < b.maxY then 1 else 0) +
      (if c.y == b.minY && b.minX + 1 <= c.x < b.maxX then 1 else 0) +
      (if c.y == b.maxY - 1 && b.minX + 1 <= c.x < b.maxX then 1 else 0)
  {
    EdgeCountParts(b, c);
    ColumnCount(b.minX, b.minY, b.maxY, c);
    ColumnCount(b.maxX - 1, b.minY, b.maxY, c);
    RowCount(b.minY, b.minX + 1, b.maxX, c);
    RowCount(b.maxY - 1, b.minX + 1, b.maxX, c);
  }

  /** The list has 2 * height + 2 * (width - 1) entries; a box of zero width and height gives none. */
  lemma EdgeListLength(b: WorldBoundaries)
    ensures |EdgeList(b)| == 2 * Span(b.minY, b.maxY) + 2 * Span(b.minX + 1, b.maxX)
    ensures b.minX == b.maxX && b.minY == b.maxY ==> EdgeList(b) == []
  {
    ColumnLength(b.minX, b.minY, b.maxY);
    ColumnLength(b.maxX - 1, b.minY, b.maxY);
    RowLength(b.minY, b.minX + 1, b.maxX);
    RowLength(b.maxY - 1, b.minX + 1, b.maxX);
  }

  /**
   * In a box at least two cells wide and high, the two right-hand corners are listed twice and
   * every other perimeter cell once: the rows start at minX + 1 but run up to maxX - 1.
   */
  lemma EdgeListRightCornersTwice(b: WorldBoundaries)
    requires b.maxX - b.minX >= 2 && b.maxY - b.minY >= 2
    ensures multiset(EdgeList(b))[Cell(b.maxX - 1, b.minY)] == 2
    ensures multiset(EdgeList(b))[Cell(b.maxX - 1, b.maxY - 1)] == 2
    ensures forall c | OnPerimeter(b, c) && c != Cell(b.maxX - 1, b.minY) && c != Cell(b.maxX - 1, b.maxY - 1) ::
              multiset(EdgeList(b))[c] == 1
  {
    EdgeCount(b, Cell(b.maxX - 1, b.minY));
    EdgeCount(b, Cell(b.maxX - 1, b.maxY - 1));
    forall c | OnPerimeter(b, c) && c != Cell(b.maxX - 1, b.minY) && c != Cell(b.maxX - 1, b.maxY - 1)
      ensures multiset(EdgeList(b))[c] == 1
    {
      EdgeCount(b, c);
    }
  }

  /** For the box of a non-empty tilemap the list is non-empty; for an empty tilemap it is empty. */
  lemma EdgeListEmptyIffGroundEmpty(ground: Tilemap, b: WorldBoundaries)
    requires TightBounds(ground, b)
    ensures EdgeList(b) == [] <==> ground == map[]
  {
    EdgeListLength(b);
    if ground != map[] {
      var c :| c in ground && c.x == b.minX;
      EdgeListCells(b);
      assert OnPerimeter(b, c);
    }
  }

  /** What a layer leaves of tight-bounded ground lies strictly inside the box: one ring is peeled. */
  lemma LayerPeelsRing(ground: Tilemap, b: WorldBoundaries)
    requires TightBounds(ground, b)
    ensures forall c | c in ground && c !in EdgeSet(b) :: b.minX < c.x < b.maxX - 1 && b.minY < c.y < b.maxY - 1
  {
    EdgeListCells(b);
    forall c | c in ground && c !in EdgeSet(b)
      ensures b.minX < c.x < b.maxX - 1 && b.minY < c.y < b.maxY - 1
    {
      assert InBox(b, c);
      assert !OnPerimeter(b, c);
    }
  }

  /** A layer over non-empty, tight-bounded ground clears at least one tile. */
  lemma LayerShrinks(ground: Tilemap, b: WorldBoundaries)
    requires TightBounds(ground, b) && ground != map[]
    ensures |ground.Keys - EdgeSet(b)| < |ground.Keys|
  {
    var c :| c in ground && c.x == b.minX;
    assert InBox(b, c);
    EdgeListCells(b);
    assert c in EdgeSet(b);
    SubsetCard(ground.Keys - EdgeSet(b), ground.Keys - {c});
  }

  lemma {:induction false} SubsetCard(a: set<Cell>, b: set<Cell>)
    requires a <= b
    ensures |a| <= |b|
    decreases |b|
  {
    if a != {} {
      var c :| c in a;
      SubsetCard(a - {c}, b - {c});
    }
  }

  /** A cell of a finite non-empty set on which `f` is least. */
  lemma {:induction false} Least(cells: set<Cell>, f: Cell -> int) returns (m: Cell)
    requires cells != {}
    ensures m in cells && forall c | c in cells :: f(m) <= f(c)
    decreases |cells|
  {
    var y :| y in cells;
    if cells == {y} {
      m := y;
    } else {
      var rest := Least(cells - {y}, f);
      m := if f(y) < f(rest) then y else rest;
      forall c | c in cells ensures f(m) <= f(c) {
        if c != y {
          assert c in cells - {y};
        }
      }
    }
  }

  /** Every tilemap has tight bounds: what Tilemap.CompressBounds computes. */
  lemma TightBoundsExist(ground: Tilemap)
    ensures exists b :: TightBounds(ground, b)
  {
    if ground == map[] {
      assert TightBounds(ground, WorldBoundaries(0, 0, 0, 0));
    } else {
      var left := Least(ground.Keys, (c: Cell) => c.x);
      var right := Least(ground.Keys, (c: Cell) => -c.x);
      var bottom := Least(ground.Keys, (c: Cell) => c.y);
      var top := Least(ground.Keys, (c: Cell) => -c.y);
      var b := WorldBoundaries(left.x, bottom.y, right.x + 1, top.y + 1);
      assert TightBounds(ground, b);
    }
  }

  /** `g1` and `g2` agree on which of `c` and its four neighbours are empty. */
  predicate SameAround(g1: Tilemap, g2: Tilemap, c: Cell) {
    (c in g1 <==> c in g2) &&
    (Cell(c.x + 1, c.y) in g1 <==> Cell(c.x + 1, c.y) in g2) &&
    (Cell(c.x - 1, c.y) in g1 <==> Cell(c.x - 1, c.y) in g2) &&
    (Cell(c.x, c.y + 1) in g1 <==> Cell(c.x, c.y + 1) in g2) &&
    (Cell(c.x, c.y - 1) in g1 <==> Cell(c.x, c.y - 1) in g2)
  }

  /** A settled cell stays settled when its tile stays and no cell around it changes emptiness. */
  lemma SettledLocal(g1: Tilemap, g2: Tilemap, c: Cell)
    requires Settled(g1, c) && SameAround(g1, g2, c) && c in g2 && g2[c] == g1[c]
    ensures Settled(g2, c)
  {
    assert RecomputeTile(g1, c.x, c.y) == RecomputeTile(g2, c.x, c.y);
  }

  /** Re-tiling a non-empty cell that has an empty neighbour settles it. */
  lemma RetiledSettles(ground: Tilemap, x: int, y: int)
    requires Cell(x, y) in ground && !Enclosed(ground, x, y)
    ensures Settled(Retiled(ground, x, y), Cell(x, y))
  {
    RetiledFrame(ground, x, y);
    RecomputeTileReadsEmptiness(ground, Retiled(ground, x, y), x, y);
  }

  /** Re-tiling one cell leaves every other settled cell settled. */
  lemma RetiledKeepsSettled(ground: Tilemap, x: int, y: int, c: Cell)
    requires Settled(ground, c) && c != Cell(x, y)
    ensures Settled(Retiled(ground, x, y), c)
  {
    RetiledFrame(ground, x, y);
    RecomputeTileReadsEmptiness(ground, Retiled(ground, x, y), c.x, c.y);
  }

  /**
   * What one pass of the fade loop leaves of `ground` in `r`: the picked cell is empty, each of
   * its remaining neighbours holds the tile its neighbourhood calls for, and every other cell
   * keeps its tile.
   */
  ghost predicate PassedOver(ground: Tilemap, pos: Cell, r: Tilemap) {
    r.Keys == ground.Keys - {pos} &&
    (forall c | c in r && !Touches(c, {pos}) :: r[c] == ground[c]) &&
    (Cell(pos.x + 1, pos.y) in r ==> Settled(r, Cell(pos.x + 1, pos.y))) &&
    (Cell(pos.x - 1, pos.y) in r ==> Settled(r, Cell(pos.x - 1, pos.y))) &&
    (Cell(pos.x, pos.y + 1) in r ==> Settled(r, Cell(pos.x, pos.y + 1))) &&
    (Cell(pos.x, pos.y - 1) in r ==> Settled(r, Cell(pos.x, pos.y - 1)))
  }

  /** The four re-tilings of a pass, applied to `cleared` in the order right, left, top, bottom. */
  ghost predicate RetiledAround(cleared: Tilemap, pos: Cell, g1: Tilemap, g2: Tilemap, g3: Tilemap, r: Tilemap) {
    g1 == Retiled(cleared, pos.x + 1, pos.y) && g2 == Retiled(g1, pos.x - 1, pos.y) &&
    g3 == Retiled(g2, pos.x, pos.y + 1) && r == Retiled(g3, pos.x, pos.y - 1)
  }

  /** The four re-tilings keep every cell's emptiness and change no tile but the four neighbours'. */
  lemma RetiledAroundFrame(cleared: Tilemap, pos: Cell, g1: Tilemap, g2: Tilemap, g3: Tilemap, r: Tilemap)
    requires RetiledAround(cleared, pos, g1, g2, g3, r)
    ensures g1.Keys == cleared.Keys && g2.Keys == cleared.Keys && g3.Keys == cleared.Keys && r.Keys == cleared.Keys
    ensures forall c | c in r && !Touches(c, {pos}) :: r[c] == cleared[c]
  {
    RetiledFrame(cleared, pos.x + 1, pos.y);
    RetiledFrame(g1, pos.x - 1, pos.y);
    RetiledFrame(g2, pos.x, pos.y + 1);
    RetiledFrame(g3, pos.x, pos.y - 1);
  }

  /** The right neighbour, re-tiled first, stays settled through the other three re-tilings. */
  lemma RightSettled(cleared: Tilemap, pos: Cell, g1: Tilemap, g2: Tilemap, g3: Tilemap, r: Tilemap)
    requires pos !in cleared && RetiledAround(cleared, pos, g1, g2, g3, r)
    ensures Cell(pos.x + 1, pos.y) in r ==> Settled(r, Cell(pos.x + 1, pos.y))
  {
    var c := Cell(pos.x + 1, pos.y);
    RetiledAroundFrame(cleared, pos, g1, g2, g3, r);
    if c in r {
      RetiledSettles(cleared, c.x, c.y);
      RetiledKeepsSettled(g1, pos.x - 1, pos.y, c);
      RetiledKeepsSettled(g2, pos.x, pos.y + 1, c);
      RetiledKeepsSettled(g3, pos.x, pos.y - 1, c);
    }
  }

  /** The left neighbour, re-tiled second, stays settled through the last two re-tilings. */
  lemma LeftSettled(cleared: Tilemap, pos: Cell, g1: Tilemap, g2: Tilemap, g3: Tilemap, r: Tilemap)
    requires pos !in cleared && RetiledAround(cleared, pos, g1, g2, g3, r)
    ensures Cell(pos.x - 1, pos.y) in r ==> Settled(r, Cell(pos.x - 1, pos.y))
  {
    var c := Cell(pos.x - 1, pos.y);
    RetiledAroundFrame(cleared, pos, g1, g2, g3, r);
    if c in r {
      RetiledSettles(g1, c.x, c.y);
      RetiledKeepsSettled(g2, pos.x, pos.y + 1, c);
      RetiledKeepsSettled(g3, pos.x, pos.y - 1, c);
    }
  }

  /** The top neighbour, re-tiled third, stays settled through the last re-tiling. */
  lemma TopSettled(cleared: Tilemap, pos: Cell, g1: Tilemap, g2: Tilemap, g3: Tilemap, r: Tilemap)
    requires pos !in cleared && RetiledAround(cleared, pos, g1, g2, g3, r)
    ensures Cell(pos.x, pos.y + 1) in r ==> Settled(r, Cell(pos.x, pos.y + 1))
  {
    var c := Cell(pos.x, pos.y + 1);
    RetiledAroundFrame(cleared, pos, g1, g2, g3, r);
    if c in r {
      RetiledSettles(g2, c.x, c.y);
      RetiledKeepsSettled(g3, pos.x, pos.y - 1, c);
    }
  }

  /** The bottom neighbour is re-tiled last. */
  lemma BottomSettled(cleared: Tilemap, pos: Cell, g1: Tilemap, g2: Tilemap, g3: Tilemap, r: Tilemap)
    requires pos !in cleared && RetiledAround(cleared, pos, g1, g2, g3, r)
    ensures Cell(pos.x, pos.y - 1) in r ==> Settled(r, Cell(pos.x, pos.y - 1))
  {
    var c := Cell(pos.x, pos.y - 1);
    RetiledAroundFrame(cleared, pos, g1, g2, g3, r);
    if c in r {
      RetiledSettles(g3, c.x, c.y);
    }
  }

  /** Clearing `pos` and then re-tiling its four neighbours is a pass over `pos`. */
  lemma ClearThenRetile(ground: Tilemap, pos: Cell, cleared: Tilemap, g1: Tilemap, g2: Tilemap, g3: Tilemap, r: Tilemap)
    requires cleared == ground - {pos}
    requires RetiledAround(cleared, pos, g1, g2, g3, r)
    ensures PassedOver(ground, pos, r)
  {
    RetiledAroundFrame(cleared, pos, g1, g2, g3, r);
    RightSettled(cleared, pos, g1, g2, g3, r);
    LeftSettled(cleared, pos, g1, g2, g3, r);
    TopSettled(cleared, pos, g1, g2, g3, r);
    BottomSettled(cleared, pos, g1, g2, g3, r);
  }

  /**
   * `ground` is what clearing the cells `removed` from `g0` leaves: those cells are empty, no
   * other cell changed emptiness, cells next to no cleared cell kept their tile, and cells next
   * to a cleared one hold the border tile their neighbourhood calls for.
   */
  ghost predicate Cleared(g0: Tilemap, ground: Tilemap, removed: set<Cell>) {
    ground.Keys == g0.Keys - removed &&
    (forall c | c in ground && !Touches(c, removed) :: ground[c] == g0[c]) &&
    (forall c | c in ground && Touches(c, removed) :: Settled(ground, c))
  }

  /** Clearing no cells leaves the tilemap as it is. */
  lemma ClearedNothing(ground: Tilemap, removed: set<Cell>)
    requires removed == {}
    ensures Cleared(ground, ground, removed)
  {
  }

  lemma ClearedSameCells(g0: Tilemap, ground: Tilemap, removed: set<Cell>, same: set<Cell>)
    requires Cleared(g0, ground, removed) && removed == same
    ensures Cleared(g0, ground, same)
  {
  }

  /** One more pass of the fade loop extends the cleared set by the position it picked. */
  lemma PassExtendsCleared(g0: Tilemap, ground: Tilemap, removed: set<Cell>, pos: Cell, r: Tilemap)
    requires Cleared(g0, ground, removed) && PassedOver(ground, pos, r)
    ensures Cleared(g0, r, removed + {pos})
  {
    forall c | c in r
      ensures (Touches(c, removed + {pos}) ==> Settled(r, c)) && (!Touches(c, removed + {pos}) ==> r[c] == g0[c])
    {
      if !Touches(c, {pos}) && Touches(c, removed) {
        SettledLocal(ground, r, c);
      }
    }
  }

  /** Lists holding the same cells the same number of times hold the same cells. */
  lemma SamePermutationSameElements(a: seq<Cell>, b: seq<Cell>)
    requires multiset(a) == multiset(b)
    ensures Elements(a) == Elements(b)
  {
    forall c ensures c in a <==> c in b {
      assert c in a <==> c in multiset(a);
      assert c in b <==> c in multiset(b);
    }
  }

  /** One pass of the removal loop, stated over the list of positions cleared so far. */
  lemma ClearStep(g0: Tilemap, ground: Tilemap, taken: seq<Cell>, pos: Cell, r: Tilemap)
    requires Cleared(g0, ground, Elements(taken)) && PassedOver(ground, pos, r)
    ensures Cleared(g0, r, Elements(taken + [pos]))
  {
    PassExtendsCleared(g0, ground, Elements(taken), pos, r);
    assert Elements(taken + [pos]) == Elements(taken) + {pos};
  }

  /** Moving one picked position from the remaining list to the cleared list keeps their union. */
  lemma TakeStep(taken: seq<Cell>, rest: seq<Cell>, pos: Cell, edges: seq<Cell>, all: seq<Cell>)
    requires multiset(taken) + multiset(rest) == multiset(all)
    requires pos in rest && edges == Remove(rest, pos)
    ensures multiset(taken + [pos]) + multiset(edges) == multiset(all)
  {
  }

  /** Removing the first occurrence of `x` (List<T>.Remove); the list is unchanged when `x` is absent. */
  function Remove(s: seq<Cell>, x: Cell): (r: seq<Cell>)
    ensures x in s ==> |r| == |s| - 1 && multiset(r) == multiset(s) - multiset{x}
    ensures x in s ==> exists i :: 0 <= i < |s| && s[i] == x && x !in s[..i] && r == s[..i] + s[i + 1..]
    ensures x !in s ==> r == s
  {
    if x in s then
      var i := IndexOf(s, x);
      assert s == s[..i] + [x] + s[i + 1..];
      s[..i] + s[i + 1..]
    else s
  }

  /** The index of the first occurrence of `x`. */
  function IndexOf(s: seq<Cell>, x: Cell): (i: nat)
    requires x in s
    ensures i < |s| && s[i] == x && x !in s[..i]
  {
    if s[0] == x then 0
    else
      var j := IndexOf(s[1..], x);
      assert s[..j + 1] == [s[0]] + s[1..][..j];
      j + 1
  }

  /** The shape of a BoxCollider2D: its offset and size. */
  datatype BoxState = BoxState(offsetX: real, offsetY: real, sizeX: real, sizeY: real)

  /** The amounts one layer moves a border by: offset shift, and size reduction per axis. */
  datatype Shrink = Shrink(xOffset: real, yOffset: real, xSizeReduction: real, ySizeReduction: real)

  const TopShrink := Shrink(0.0, -1.0, 2.0, 0.0)
  const BottomShrink := Shrink(0.0, 1.0, 2.0, 0.0)
  const RightShrink := Shrink(-1.0, 0.0, 0.0, 2.0)
  const LeftShrink := Shrink(1.0, 0.0, 0.0, 2.0)

  /** A border after one layer: the offset moves by the shrink's offsets, the size loses its reductions. */
  function ShrinkOnce(b: BoxState, s: Shrink): BoxState {
    BoxState(b.offsetX + s.xOffset, b.offsetY + s.yOffset, b.sizeX - s.xSizeReduction, b.sizeY - s.ySizeReduction)
  }

  /** A border after `n` layers have each applied the shrink `s`. */
  function ShrunkBy(b: BoxState, s: Shrink, n: nat): BoxState {
    if n == 0 then b else ShrinkOnce(ShrunkBy(b, s, n - 1), s)
  }

  /**
   * Repeated shrinks accumulate. After `n` layers the top and bottom borders have moved down and
   * up by `n` and lost `2n` of their width; the right and left borders have moved left and right
   * by `n` and lost `2n` of their height. No other component changes.
   */
  lemma {:induction false} BordersAfterLayers(top: BoxState, bottom: BoxState, right: BoxState, left: BoxState, n: nat)
    ensures ShrunkBy(top, TopShrink, n) == BoxState(top.offsetX, top.offsetY - n as real, top.sizeX - 2.0 * n as real, top.sizeY)
    ensures ShrunkBy(bottom, BottomShrink, n) == BoxState(bottom.offsetX, bottom.offsetY + n as real, bottom.sizeX - 2.0 * n as real, bottom.sizeY)
    ensures ShrunkBy(right, RightShrink, n) == BoxState(right.offsetX - n as real, right.offsetY, right.sizeX, right.sizeY - 2.0 * n as real)
    ensures ShrunkBy(left, LeftShrink, n) == BoxState(left.offsetX + n as real, left.offsetY, left.sizeX, left.sizeY - 2.0 * n as real)
  {
    if n > 0 {
      BordersAfterLayers(top, bottom, right, left, n - 1);
    }
  }

  /** A BoxCollider2D whose offset and size the fade changes in place. */
  class BorderCollider {
    var offsetX: real
    var offsetY: real
    var sizeX: real
    var sizeY: real

    constructor (offsetX: real, offsetY: real, sizeX: real, sizeY: real)
      ensures State() == BoxState(offsetX, offsetY, sizeX, sizeY)
    {
      this.offsetX, this.offsetY, this.sizeX, this.sizeY := offsetX, offsetY, sizeX, sizeY;
    }

    function State(): BoxState
      reads this
    {
      BoxState(offsetX, offsetY, sizeX, sizeY)
    }

    /** Moves the offset by the shrink's offsets and takes its reductions off the size. */
    method ShrinkBorder(s: Shrink)
      modifies this
      ensures State() == ShrinkOnce(old(State()), s)
    {
      offsetX, offsetY := offsetX + s.xOffset, offsetY + s.yOffset;
      sizeX := sizeX - s.xSizeReduction;
      sizeY := sizeY - s.ySizeReduction;
    }
  }

  /** The part of the world generator the fade uses: the four borders and the object registry. */
  class WorldGenerator {
    const topWorldBorder: BorderCollider
    const bottomWorldBorder: BorderCollider
    const rightWorldBorder: BorderCollider
    const leftWorldBorder: BorderCollider
    /** The cells for which DestroyPositionalObject was requested, in order. */
    var destroyRequests: seq<Cell>

    constructor (top: BorderCollider, bottom: BorderCollider, right: BorderCollider, left: BorderCollider)
      ensures topWorldBorder == top && bottomWorldBorder == bottom
      ensures rightWorldBorder == right && leftWorldBorder == left
      ensures destroyRequests == []
    {
      topWorldBorder, bottomWorldBorder, rightWorldBorder, leftWorldBorder := top, bottom, right, left;
      destroyRequests := [];
    }

    /** Asks the registry to destroy whatever object occupies (x, y). */
    method DestroyPositionalObject(x: int, y: int)
      modifies this
      ensures destroyRequests == old(destroyRequests) + [Cell(x, y)]
    {
      destroyRequests := destroyRequests + [Cell(x, y)];
    }

    /** The four borders are four distinct colliders. */
    ghost predicate Valid() {
      topWorldBorder != bottomWorldBorder && topWorldBorder != rightWorldBorder &&
      topWorldBorder != leftWorldBorder && bottomWorldBorder != rightWorldBorder &&
      bottomWorldBorder != leftWorldBorder && rightWorldBorder != leftWorldBorder
    }

    ghost function Borders(): set<object> {
      {topWorldBorder, bottomWorldBorder, rightWorldBorder, leftWorldBorder}
    }
  }

  /** Lists the edge positions of the box, by appending its two columns and two rows. */
  method GetEdgePositions(b: WorldBoundaries) returns (positions: seq<Cell>)
    ensures positions == EdgeList(b)
  {
    positions := [];
    positions := CountVertical(positions, b.minX, b);
    positions := CountVertical(positions, b.maxX - 1, b);
    positions := CountHorizontal(positions, b.minY, b);
    positions := CountHorizontal(positions, b.maxY - 1, b);
  }

  /** Appends the cells (x, minY) ... (x, maxY - 1). */
  method CountVertical(positions: seq<Cell>, x: int, b: WorldBoundaries) returns (r: seq<Cell>)
    ensures r == positions + Column(x, b.minY, b.maxY)
  {
    r := positions;
    var y := b.minY;
    while y < b.maxY
      invariant b.minY <= y && (y <= b.maxY || y == b.minY)
      invariant r == positions + Column(x, b.minY, y)
    {
      r := r + [Cell(x, y)];
      y := y + 1;
    }
  }

  /** Appends the cells (minX + 1, y) ... (maxX - 1, y). */
  method CountHorizontal(positions: seq<Cell>, y: int, b: WorldBoundaries) returns (r: seq<Cell>)
    ensures r == positions + Row(y, b.minX + 1, b.maxX)
  {
    r := positions;
    var x := b.minX + 1;
    while x < b.maxX
      invariant b.minX + 1 <= x && (x <= b.maxX || x == b.minX + 1)
      invariant r == positions + Row(y, b.minX + 1, x)
    {
      r := r + [Cell(x, y)];
      x := x + 1;
    }
  }

  /** The fade component: the ground tilemap it erodes and the generator that owns the borders. */
  class WorldFade {
    var ground: Tilemap
    const generator: WorldGenerator

    constructor (ground: Tilemap, generator: WorldGenerator)
      ensures this.ground == ground && this.generator == generator
    {
      this.ground := ground;
      this.generator := generator;
    }

    /** The tight bounds of the ground, maximum coordinates exclusive (CompressBounds, then cellBounds). */
    method GetWorldBoundaries() returns (b: WorldBoundaries)
      ensures TightBounds(ground, b)
    {
      TightBoundsExist(ground);
      b :| TightBounds(ground, b);
    }

    /** Moves each border one cell inward and takes two cells off its length. */
    method ShrinkWorldBorders()
      requires generator.Valid()
      modifies generator.Borders()
      ensures generator.topWorldBorder.State() == ShrinkOnce(old(generator.topWorldBorder.State()), TopShrink)
      ensures generator.bottomWorldBorder.State() == ShrinkOnce(old(generator.bottomWorldBorder.State()), BottomShrink)
      ensures generator.rightWorldBorder.State() == ShrinkOnce(old(generator.rightWorldBorder.State()), RightShrink)
      ensures generator.leftWorldBorder.State() == ShrinkOnce(old(generator.leftWorldBorder.State()), LeftShrink)
    {
      generator.topWorldBorder.ShrinkBorder(TopShrink);
      generator.bottomWorldBorder.ShrinkBorder(BottomShrink);
      generator.rightWorldBorder.ShrinkBorder(RightShrink);
      generator.leftWorldBorder.ShrinkBorder(LeftShrink);
    }

    /**
     * One layer of the fade. An empty list of edge positions stops the fade before the borders
     * move; otherwise every listed position is cleared and then the borders shrink.
     */
    method FadeLayer() returns (boundaries: WorldBoundaries, stopped: bool)
      requires generator.Valid()
      modifies this, generator, generator.Borders()
      ensures TightBounds(old(ground), boundaries)
      ensures stopped <==> old(ground) == map[]
      ensures stopped ==> ground == old(ground) && generator.destroyRequests == old(generator.destroyRequests)
      // the ring is cleared and the cells around it re-tiled; nothing else changes
      ensures Cleared(old(ground), ground, EdgeSet(boundaries))
      // each listed position is destroyed as often as it is listed, and nothing else
      ensures |generator.destroyRequests| >= |old(generator.destroyRequests)|
      ensures generator.destroyRequests[..|old(generator.destroyRequests)|] == old(generator.destroyRequests)
      ensures multiset(generator.destroyRequests[|old(generator.destroyRequests)|..]) == multiset(EdgeList(boundaries))
      // a stopped layer leaves the borders alone; a completed one shrinks each of them once
      ensures stopped ==> unchanged(generator.Borders())
      ensures !stopped ==> generator.topWorldBorder.State() == ShrinkOnce(old(generator.topWorldBorder.State()), TopShrink)
      ensures !stopped ==> generator.bottomWorldBorder.State() == ShrinkOnce(old(generator.bottomWorldBorder.State()), BottomShrink)
      ensures !stopped ==> generator.rightWorldBorder.State() == ShrinkOnce(old(generator.rightWorldBorder.State()), RightShrink)
      ensures !stopped ==> generator.leftWorldBorder.State() == ShrinkOnce(old(generator.leftWorldBorder.State()), LeftShrink)
    {
      boundaries := GetWorldBoundaries();
      var edgePositions := GetEdgePositions(boundaries);
      EdgeListEmptyIffGroundEmpty(ground, boundaries);
      if |edgePositions| == 0 {
        // StopFade ends the coroutine at its next yield, before the borders are shrunk
        ClearedNothing(ground, EdgeSet(boundaries));
        assert generator.destroyRequests[|generator.destroyRequests|..] == [];
        return boundaries, true;
      }
      ghost var g0 := ground;
      ClearEdges(edgePositions);
      ClearedSameCells(g0, ground, Elements(edgePositions), EdgeSet(boundaries));
      ShrinkWorldBorders();
      stopped := false;
    }

    /**
     * The body of the removal loop for the picked position: clear its tile, ask for its object
     * to be destroyed, and re-tile its right, left, top and bottom neighbours.
     */
    method ClearPosition(pos: Cell)
      modifies this, generator
      ensures PassedOver(old(ground), pos, ground)
      ensures generator.destroyRequests == old(generator.destroyRequests) + [pos]
    {
      ground := ground - {pos};
      ghost var cleared := ground;
      generator.DestroyPositionalObject(pos.x, pos.y);
      ground := Retiled(ground, pos.x + 1, pos.y);
      ghost var g1 := ground;
      ground := Retiled(ground, pos.x - 1, pos.y);
      ghost var g2 := ground;
      ground := Retiled(ground, pos.x, pos.y + 1);
      ghost var g3 := ground;
      ground := Retiled(ground, pos.x, pos.y - 1);
      ClearThenRetile(old(ground), pos, cleared, g1, g2, g3, ground);
    }

    /** One pass of the removal loop: pick any remaining position, drop it from the list and clear it. */
    method ClearRandomEdge(edges: seq<Cell>, ghost taken: seq<Cell>, ghost g0: Tilemap, ghost log0: seq<Cell>, ghost all: seq<Cell>)
      returns (rest: seq<Cell>, ghost taken': seq<Cell>)
      requires |edges| > 0
      requires multiset(taken) + multiset(edges) == multiset(all)
      requires generator.destroyRequests == log0 + taken
      requires Cleared(g0, ground, Elements(taken))
      modifies this, generator
      ensures |rest| == |edges| - 1
      ensures multiset(taken') + multiset(rest) == multiset(all)
      ensures generator.destroyRequests == log0 + taken'
      ensures Cleared(g0, ground, Elements(taken'))
    {
      var i :| 0 <= i < |edges|;
      var pos := edges[i];
      rest := Remove(edges, pos);
      ghost var before := ground;
      ClearPosition(pos);
      ClearStep(g0, before, taken, pos, ground);
      TakeStep(taken, edges, pos, rest, all);
      taken' := taken + [pos];
    }

    /**
     * The removal loop of a layer: picks a listed position at random, removes it from the list
     * and clears it, until the list is empty.
     */
    method ClearEdges(edgePositions: seq<Cell>)
      modifies this, generator
      ensures Cleared(old(ground), ground, Elements(edgePositions))
      ensures |generator.destroyRequests| >= |old(generator.destroyRequests)|
      ensures generator.destroyRequests[..|old(generator.destroyRequests)|] == old(generator.destroyRequests)
      ensures multiset(generator.destroyRequests[|old(generator.destroyRequests)|..]) == multiset(edgePositions)
    {
      ghost var g0, log0 := ground, generator.destroyRequests;
      var edges := edgePositions;
      ghost var taken: seq<Cell> := [];
      while |edges| > 0
        invariant multiset(taken) + multiset(edges) == multiset(edgePositions)
        invariant generator.destroyRequests == log0 + taken
        invariant Cleared(g0, ground, Elements(taken))
        decreases |edges|
      {
        edges, taken := ClearRandomEdge(edges, taken, g0, log0, edgePositions);
      }
      SamePermutationSameElements(taken, edgePositions);
      assert generator.destroyRequests[|old(generator.destroyRequests)|..] == taken;
    }
  }
}
