/** The tile editor of include/Sandbox.h: a tilemap filling the screen left
    of a 200-pixel side panel, edited with a square brush, a "fill the first
    empty tile" key, a clear button and a dump of the serialized map. The
    frame's input arrives as an `EditorInput` value; raylib's point-in-
    rectangle test is the parameter `inside`, and what the source prints of
    the tilemap is returned as the list `dumps`. */
module SandboxEditor {
  import opened Common
  import opened Components
  import opened Maths
  import opened Tilemap
  import opened SidePanel

  /** `m_sidePanelWidth`: the width reserved for the panel at the right. */
  const PANEL_WIDTH: int := 200
  /** The tile size `Init` gives the tilemap, in pixels. */
  const EDITOR_TILE_SIZE: int := 20
  /** The width of the slider, the clear and the save buttons. */
  const PANEL_CONTROL_WIDTH: real := 180.0

  /** One frame's input: where the mouse is, which buttons are held or
      were just pressed, and which keys were pressed (`keyT` is pressed or
      held). */
  datatype EditorInput = EditorInput(
    mousePosition: Vec2,
    leftDown: bool,
    rightDown: bool,
    leftPressed: bool,
    keyG: bool,
    keyT: bool,
    keyP: bool)

  // ---------------------------------------------------------------------
  // Grid sizing

  /** `std::vector::resize`: cut to `n`, or padded with `fill` up to `n`. */
  function Resize(s: seq<int>, n: nat, fill: int): (r: seq<int>)
    ensures |r| == n
    ensures forall i :: 0 <= i < n && i < |s| ==> r[i] == s[i]
    ensures forall i :: |s| <= i < n ==> r[i] == fill
    ensures n == |s| ==> r == s
  {
    if n <= |s| then s[..n] else s + seq(n - |s|, _ => fill)
  }

  /** The number of 20-pixel tiles `Init` fits into the drawing area, with
      C++'s truncating division. */
  function GridTileCount(screenWidth: int, screenHeight: int): int
  {
    CDiv(screenWidth - PANEL_WIDTH, EDITOR_TILE_SIZE) * CDiv(screenHeight, EDITOR_TILE_SIZE)
  }

  /** Running `Init` a second time, as `Run` does, keeps every tile: the
      tilemap already has the size it asks for. */
  lemma {:induction false} ResizeAgainKeeps(s: seq<int>, n: nat, fill: int, fill': int)
    ensures Resize(Resize(s, n, fill), n, fill') == Resize(s, n, fill)
  {
    var r := Resize(s, n, fill);
    assert |r| == n;
  }

  /** On an 800 by 600 window the drawing area is 30 tiles wide and 30
      high. */
  lemma DefaultGridTileCount()
    ensures GridTileCount(800, 600) == 900
  {
    assert CDiv(600, 20) == 30;
  }

  // ---------------------------------------------------------------------
  // The square brush

  /** A brush stroke in tile coordinates: the centre tile, the radius, and
      the grid it is clipped to. */
  datatype Brush = Brush(centerX: int, centerY: int, radius: int, tilesPerRow: int, rows: int)

  /** Tile `i` of a grid `tilesPerRow` wide and `rows` high lies in columns
      `x0` to `x1 - 1` and rows `y0` to `y1 - 1`. */
  predicate InRect(tilesPerRow: int, rows: int, i: int, x0: int, x1: int, y0: int, y1: int)
  {
    tilesPerRow > 0 && i >= 0 &&
    x0 <= i % tilesPerRow < x1 && y0 <= i / tilesPerRow < y1 && i / tilesPerRow < rows
  }

  /** Tile `i` is under the brush's clipped square. */
  predicate InBrush(b: Brush, i: int)
  {
    InRect(b.tilesPerRow, b.rows, i, b.centerX - b.radius, b.centerX + b.radius + 1,
           b.centerY - b.radius, b.centerY + b.radius + 1)
  }

  /** The tiles after a stroke of value `v`. */
  function Brushed(tiles: seq<int>, b: Brush, v: int): (r: seq<int>)
    ensures |r| == |tiles|
  {
    seq(|tiles|, i requires 0 <= i < |tiles| => if InBrush(b, i) then v else tiles[i])
  }

  /** The brush `DrawBrushTiles` uses: the tile under the mouse (the pixel
      coordinates divided by the tile size and truncated), radius
      `(brushSize - 1) / 2` in C++ division, clipped to the drawing area. */
  function BrushAt(mousePos: Vec2, tileSize: int, brushSize: int, drawingAreaWidth: int, screenHeight: int): Brush
    requires tileSize > 0
  {
    Brush(Trunc(mousePos.x / tileSize as real), Trunc(mousePos.y / tileSize as real),
          CDiv(brushSize - 1, 2), CDiv(drawingAreaWidth, tileSize), CDiv(screenHeight, tileSize))
  }

  /** A tile index in a grid `tilesPerRow` wide names one column and row. */
  lemma CellOf(index: int, tilesPerRow: int, x: int, y: int)
    requires tilesPerRow > 0 && 0 <= x < tilesPerRow && y >= 0 && index == y * tilesPerRow + x
    ensures index >= 0 && index % tilesPerRow == x && index / tilesPerRow == y
  {
    DivModUnique(index, tilesPerRow, y, x);
  }

  /** Every tile of the square that lies inside the grid and the tilemap
      receives the brush's value. */
  lemma BrushPaintsSquare(tiles: seq<int>, b: Brush, v: int, x: int, y: int)
    requires 0 <= x < b.tilesPerRow && 0 <= y < b.rows
    requires b.centerX - b.radius <= x <= b.centerX + b.radius
    requires b.centerY - b.radius <= y <= b.centerY + b.radius
    requires y * b.tilesPerRow + x < |tiles|
    ensures y * b.tilesPerRow + x >= 0
    ensures Brushed(tiles, b, v)[y * b.tilesPerRow + x] == v
  {
    CellOf(y * b.tilesPerRow + x, b.tilesPerRow, x, y);
  }

  /** A tile outside the square, or below the last row, keeps its value:
      in particular a square at the end of a row does not wrap into the
      start of the next one. */
  lemma BrushKeepsOutside(tiles: seq<int>, b: Brush, v: int, x: int, y: int)
    requires 0 <= x < b.tilesPerRow && 0 <= y && y * b.tilesPerRow + x < |tiles|
    requires x < b.centerX - b.radius || x > b.centerX + b.radius ||
             y < b.centerY - b.radius || y > b.centerY + b.radius || y >= b.rows
    ensures y * b.tilesPerRow + x >= 0
    ensures Brushed(tiles, b, v)[y * b.tilesPerRow + x] == tiles[y * b.tilesPerRow + x]
  {
    CellOf(y * b.tilesPerRow + x, b.tilesPerRow, x, y);
  }

  /** A brush of radius 0 changes at most the tile under the mouse. */
  lemma SinglePixelBrush(tiles: seq<int>, b: Brush, v: int, i: int)
    requires b.radius == 0 && 0 <= i < |tiles| && Brushed(tiles, b, v)[i] != tiles[i]
    ensures b.tilesPerRow > 0 && i == b.centerY * b.tilesPerRow + b.centerX
  {
    assert i == (i / b.tilesPerRow) * b.tilesPerRow + i % b.tilesPerRow;
  }

  /** A held left button paints 1, a held right button paints 0, and with
      both held the erase comes last. */
  function Stroke(tiles: seq<int>, b: Brush, leftDown: bool, rightDown: bool): (r: seq<int>)
    ensures |r| == |tiles|
  {
    var painted := if leftDown then Brushed(tiles, b, 1) else tiles;
    if rightDown then Brushed(painted, b, 0) else painted
  }

  /** What each tile holds after a stroke: erased under a held right
      button, painted under a held left button alone, otherwise unchanged. */
  lemma StrokeTile(tiles: seq<int>, b: Brush, leftDown: bool, rightDown: bool, i: int)
    requires 0 <= i < |tiles|
    ensures Stroke(tiles, b, leftDown, rightDown)[i] ==
      if InBrush(b, i) && rightDown then 0
      else if InBrush(b, i) && leftDown then 1
      else tiles[i]
  {
  }

  // ---------------------------------------------------------------------
  // The T key

  /** The lowest index of an empty tile, if there is one. */
  function FirstZero(tiles: seq<int>): (k: Option<nat>)
    ensures k.Some? ==> k.value < |tiles| && tiles[k.value] == 0
    ensures k.Some? ==> forall j :: 0 <= j < k.value ==> tiles[j] != 0
    ensures k.None? <==> forall j :: 0 <= j < |tiles| ==> tiles[j] != 0
  {
    if tiles == [] then None
    else if tiles[0] == 0 then Some(0)
    else
      match FirstZero(tiles[1..])
      case None => None
      case Some(k) => Some(k + 1)
  }

  /** One T-key step on the tiles and the sticky `full` flag: unless full,
      the lowest empty tile becomes 1, or, if there is none, the map is
      marked full. */
  function TStep(tiles: seq<int>, full: bool): (seq<int>, bool)
  {
    if full then (tiles, true)
    else
      match FirstZero(tiles)
      case Some(k) => (tiles[k := 1], false)
      case None => (tiles, true)
  }

  /** A step changes at most one tile, from 0 to 1, and never sets a tile
      below that one; once `full` holds it stays, and nothing is added. */
  lemma TStepEffect(tiles: seq<int>, full: bool)
    ensures |TStep(tiles, full).0| == |tiles|
    ensures full ==> TStep(tiles, full) == (tiles, true)
    ensures TStep(tiles, full).1 ==> TStep(tiles, full).0 == tiles
    ensures !full && (exists j :: 0 <= j < |tiles| && tiles[j] == 0) ==> !TStep(tiles, full).1
    ensures forall i :: 0 <= i < |tiles| && TStep(tiles, full).0[i] != tiles[i] ==>
      !full && tiles[i] == 0 && TStep(tiles, full).0[i] == 1 &&
      forall j :: 0 <= j < i ==> tiles[j] != 0
    ensures !full && FirstZero(tiles).Some? ==>
      FirstZero(tiles).value < |tiles| && TStep(tiles, full) == (tiles[FirstZero(tiles).value := 1], false)
    ensures !full && (forall j :: 0 <= j < |tiles| ==> tiles[j] != 0) ==> TStep(tiles, full) == (tiles, true)
  {
    if !full && (exists j :: 0 <= j < |tiles| && tiles[j] == 0) {
      assert FirstZero(tiles).Some?;
    }
  }

  /** Repeated T-key steps fill the empty tiles from the lowest index up:
      after `n` steps on a map with at least `n` empty tiles the map is not
      full, and the number of empty tiles has dropped by `n`. */
  function TSteps(tiles: seq<int>, full: bool, n: nat): (seq<int>, bool)
  {
    if n == 0 then (tiles, full)
    else
      var s := TSteps(tiles, full, n - 1);
      TStep(s.0, s.1)
  }

  function EmptyCount(tiles: seq<int>): nat
  {
    if tiles == [] then 0 else (if tiles[0] == 0 then 1 else 0) + EmptyCount(tiles[1..])
  }

  lemma {:induction false} EmptyCountPositive(tiles: seq<int>, j: int)
    requires 0 <= j < |tiles| && tiles[j] == 0
    ensures EmptyCount(tiles) > 0
  {
    if j > 0 {
      EmptyCountPositive(tiles[1..], j - 1);
    }
  }

  lemma {:induction false} EmptyCountFill(tiles: seq<int>, k: nat)
    requires k < |tiles| && tiles[k] == 0
    ensures EmptyCount(tiles[k := 1]) == EmptyCount(tiles) - 1
  {
    if k > 0 {
      assert tiles[k := 1][1..] == tiles[1..][k - 1 := 1];
      EmptyCountFill(tiles[1..], k - 1);
    } else {
      assert tiles[k := 1][1..] == tiles[1..];
    }
  }

  lemma {:induction false} TStepsFill(tiles: seq<int>, n: nat)
    requires n <= EmptyCount(tiles)
    ensures !TSteps(tiles, false, n).1
    ensures |TSteps(tiles, false, n).0| == |tiles|
    ensures EmptyCount(TSteps(tiles, false, n).0) == EmptyCount(tiles) - n
  {
    if n > 0 {
      TStepsFill(tiles, n - 1);
      var s := TSteps(tiles, false, n - 1);
      assert EmptyCount(s.0) > 0;
      var k :| 0 <= k < |s.0| && s.0[k] == 0 by {
        if forall j :: 0 <= j < |s.0| ==> s.0[j] != 0 {
          EmptyCountNone(s.0);
          assert false;
        }
      }
      assert FirstZero(s.0).Some?;
      EmptyCountFill(s.0, FirstZero(s.0).value);
    }
  }

  lemma {:induction false} EmptyCountNone(tiles: seq<int>)
    requires forall j :: 0 <= j < |tiles| ==> tiles[j] != 0
    ensures EmptyCount(tiles) == 0
  {
    if tiles != [] {
      EmptyCountNone(tiles[1..]);
    }
  }

  /** Holding T long enough fills every empty tile, and the step after
      the last one marks the map full. */
  lemma FillThenFull(tiles: seq<int>)
    ensures var s := TSteps(tiles, false, EmptyCount(tiles) + 1);
      s.1 && |s.0| == |tiles| && forall j :: 0 <= j < |s.0| ==> s.0[j] != 0
  {
    var n := EmptyCount(tiles);
    TStepsFill(tiles, n);
    var s := TSteps(tiles, false, n);
    forall j | 0 <= j < |s.0|
      ensures s.0[j] != 0
    {
      if s.0[j] == 0 {
        EmptyCountPositive(s.0, j);
      }
    }
    assert FirstZero(s.0).None?;
  }

  /** Once full, any number of further steps changes nothing. */
  lemma {:induction false} TStepsFullSticks(tiles: seq<int>, n: nat)
    ensures TSteps(tiles, true, n) == (tiles, true)
  {
    if n > 0 {
      TStepsFullSticks(tiles, n - 1);
    }
  }

  // ---------------------------------------------------------------------
  // Clearing, the slider and the panel layout

  /** `n` empty tiles. */
  function Cleared(n: nat): (r: seq<int>)
    ensures |r| == n && forall i :: 0 <= i < n ==> r[i] == 0
  {
    seq(n, _ => 0)
  }

  /** A cleared map draws nothing at all. */
  lemma ClearedDrawsNothing(tm: Tilemap, screenWidth: int)
    requires tm.tileSize > 0 && screenWidth >= 0
    requires forall i :: 0 <= i < |tm.tiles| ==> tm.tiles[i] == 0
    ensures DrawDefined(tm, screenWidth)
    ensures DrawRequests(tm, screenWidth) == []
  {
    ClearedRequestsUpTo(tm, screenWidth, |tm.tiles|);
  }

  lemma {:induction false} ClearedRequestsUpTo(tm: Tilemap, screenWidth: int, n: nat)
    requires tm.tileSize > 0 && screenWidth >= 0 && n <= |tm.tiles|
    requires forall i :: 0 <= i < |tm.tiles| ==> tm.tiles[i] == 0
    ensures DrawDefined(tm, screenWidth)
    ensures RequestsUpTo(tm, screenWidth, n) == []
  {
    if n > 0 {
      ClearedRequestsUpTo(tm, screenWidth, n - 1);
    }
  }

  /** The brush size the panel's slider stands for when the mouse is
      `relativeX` pixels right of its left edge: the fraction of the width,
      clamped to 0..1, scaled to 0..9 and truncated, plus one. */
  function SliderBrushSize(relativeX: real, width: real): (size: int)
    requires width > 0.0
    ensures 1 <= size <= 10
    ensures relativeX <= 0.0 ==> size == 1
    ensures relativeX >= width ==> size == 10
  {
    1 + Trunc(Clamp(relativeX / width, 0.0, 1.0) * 9.0)
  }

  /** Further right on the slider never means a smaller brush. */
  lemma SliderMonotone(a: real, b: real, width: real)
    requires width > 0.0 && a <= b
    ensures SliderBrushSize(a, width) <= SliderBrushSize(b, width)
  {
    assert a / width <= b / width by {
      assert b / width - a / width == (b - a) / width;
    }
    var fa := Clamp(a / width, 0.0, 1.0) * 9.0;
    var fb := Clamp(b / width, 0.0, 1.0) * 9.0;
    assert 0.0 <= fa <= fb;
    assert fa.Floor <= fb.Floor;
  }

  /** The panel's controls as `HandleSidePanelInput` lays them out, below
      the panel's top-left corner `offset`. */
  function SliderArea(offset: Vec2): Rect
  {
    Rect(offset.x + 10.0, offset.y + 60.0, PANEL_CONTROL_WIDTH, 20.0)
  }

  function ClearArea(offset: Vec2): Rect
  {
    Rect(offset.x + 10.0, offset.y + 110.0, PANEL_CONTROL_WIDTH, 30.0)
  }

  function SaveArea(offset: Vec2): Rect
  {
    Rect(offset.x + 10.0, offset.y + 150.0, PANEL_CONTROL_WIDTH, 30.0)
  }

  function GridToggleArea(offset: Vec2): Rect
  {
    Rect(offset.x + 10.0, offset.y + 190.0, 20.0, 20.0)
  }

  /** The mouse is over the panel: right of the drawing area and inside
      the window. */
  predicate InPanelArea(p: Vec2, screenWidth: int, screenHeight: int)
  {
    p.x >= (screenWidth - PANEL_WIDTH) as real && p.x < screenWidth as real &&
    p.y >= 0.0 && p.y < screenHeight as real
  }

  /** The index of the tile under the mouse, with C++'s truncations. */
  function TileIndex(p: Vec2, tileSize: int, drawingAreaWidth: int): int
    requires tileSize > 0
  {
    CDiv(Trunc(p.y), tileSize) * CDiv(drawingAreaWidth, tileSize) + CDiv(Trunc(p.x), tileSize)
  }

  /** `HandleInput` returns early: the mouse is over the drawing area but
      its tile index is outside the tilemap. */
  predicate Aborts(p: Vec2, screenWidth: int, screenHeight: int, tm: Tilemap)
    requires tm.tileSize > 0
  {
    !InPanelArea(p, screenWidth, screenHeight) && p.x < (screenWidth - PANEL_WIDTH) as real &&
    var index := TileIndex(p, tm.tileSize, screenWidth - PANEL_WIDTH);
    index < 0 || index >= |tm.tiles|
  }

  /** The tiles after the drawing-area half of `HandleInput`: a stroke
      when the mouse is over the drawing area on a tile of the map, and
      no change otherwise. */
  function StrokedTiles(input: EditorInput, tm: Tilemap, brushSize: int, screenWidth: int, screenHeight: int): (r: seq<int>)
    requires tm.tileSize > 0
    ensures |r| == |tm.tiles|
  {
    var p := input.mousePosition;
    var index := TileIndex(p, tm.tileSize, screenWidth - PANEL_WIDTH);
    if p.x < (screenWidth - PANEL_WIDTH) as real && 0 <= index < |tm.tiles|
    then Stroke(tm.tiles, BrushAt(p, tm.tileSize, brushSize, screenWidth - PANEL_WIDTH, screenHeight),
                input.leftDown, input.rightDown)
    else tm.tiles
  }

  /** The T key in a frame: a step of `TStep` if it is down. */
  function TKey(tiles: seq<int>, full: bool, keyT: bool): (seq<int>, bool)
  {
    if keyT then TStep(tiles, full) else (tiles, full)
  }

  /** `Sandbox`. `tileSize` is computed and never used, like `gridSize`;
      the function-local statics `full` and `last` of the source are
      fields here. */
  class Sandbox {
    const screenWidth: int
    const screenHeight: int
    var drawGrid: bool
    var gridSize: int
    const tileSize: nat
    var tilemap: Tilemap
    var brushSize: int
    var sidePanel: Option<SidePanelGUI>
    var accumulatedTime: real
    var lastLog: real
    var full: bool

    /** Every operation divides by the tilemap's tile size. */
    predicate Valid()
      reads this
    {
      tilemap.tileSize > 0
    }

    function PanelObjects(): set<object>
      reads this
    {
      if sidePanel.Some? then {sidePanel.value} else {}
    }

    /** The constructor sets the field defaults and runs `Init`. */
    constructor(screenWidth: nat, screenHeight: nat)
      requires GridTileCount(screenWidth, screenHeight) >= 0
      ensures Valid()
      ensures this.screenWidth == screenWidth && this.screenHeight == screenHeight
      ensures tileSize == Gcd(screenWidth, screenHeight)
      ensures drawGrid && gridSize == 32 && brushSize == 1 && !full
      ensures accumulatedTime == 0.0 && lastLog == 0.0
      ensures tilemap == Tilemap(EDITOR_TILE_SIZE, Cleared(GridTileCount(screenWidth, screenHeight)))
      ensures sidePanel.Some? && fresh(sidePanel.value) && sidePanel.value.Valid()
      ensures |sidePanel.value.components| == 6
    {
      this.screenWidth := screenWidth;
      this.screenHeight := screenHeight;
      drawGrid := true;
      gridSize := 32;
      var g := ComputeGcd(screenWidth, screenHeight);
      tileSize := g;
      tilemap := EMPTY_TILEMAP;
      brushSize := 1;
      sidePanel := None;
      accumulatedTime := 0.0;
      lastLog := 0.0;
      full := false;
      new;
      Init();
    }

    /** `Init`: 20-pixel tiles, the tilemap resized to fill the drawing
        area with new tiles empty, and a fresh side panel at the right
        with all four callbacks set and its widgets created. */
    method Init()
      requires GridTileCount(screenWidth, screenHeight) >= 0
      modifies this`tilemap, this`sidePanel
      ensures Valid()
      ensures tilemap == Tilemap(EDITOR_TILE_SIZE, Resize(old(tilemap.tiles), GridTileCount(screenWidth, screenHeight), 0))
      ensures sidePanel.Some? && fresh(sidePanel.value)
      ensures var p := sidePanel.value;
        && p.Valid() && |p.components| == 6
        && p.x == screenWidth - PANEL_WIDTH && p.y == 0 && p.width == PANEL_WIDTH && p.height == screenHeight
        && p.backgroundColor == LIGHTGRAY
        && p.hasOnClear && p.hasOnSave && p.hasOnGridToggle && p.hasOnBrushSizeChanged
    {
      var drawingAreaWidth := screenWidth - PANEL_WIDTH;
      tilemap := tilemap.(tileSize := EDITOR_TILE_SIZE);
      var count := CDiv(drawingAreaWidth, tilemap.tileSize) * CDiv(screenHeight, tilemap.tileSize);
      tilemap := tilemap.(tiles := Resize(tilemap.tiles, count, 0));
      var panel := new SidePanelGUI(screenWidth - PANEL_WIDTH, 0, PANEL_WIDTH, screenHeight, LIGHTGRAY);
      panel.SetOnClearCallback(true);
      panel.SetOnSaveCallback(true);
      panel.SetOnGridToggleCallback(true);
      panel.SetOnBrushSizeChanged(true);
      var _, _, _, _, _, _ := panel.Init();
      sidePanel := Some(panel);
    }

    /** `DrawBrushTiles`: every tile of the clipped square around the tile
        under the mouse receives `tileValue`, and no other tile changes. */
    method DrawBrushTiles(mousePos: Vec2, tileValue: int, drawingAreaWidth: int)
      requires Valid()
      modifies this`tilemap
      ensures Valid()
      ensures tilemap == old(tilemap).(tiles := Brushed(old(tilemap.tiles),
        BrushAt(mousePos, tilemap.tileSize, brushSize, drawingAreaWidth, screenHeight), tileValue))
    {
      var ts := tilemap.tileSize;
      var centerTileX := Trunc(mousePos.x / ts as real);
      var centerTileY := Trunc(mousePos.y / ts as real);
      var tilesPerRow := CDiv(drawingAreaWidth, ts);
      var brushRadius := CDiv(brushSize - 1, 2);
      var rows := CDiv(screenHeight, ts);
      ghost var b := Brush(centerTileX, centerTileY, brushRadius, tilesPerRow, rows);
      ghost var t0 := tilemap.tiles;
      ghost var x0, x1, y0 := centerTileX - brushRadius, centerTileX + brushRadius + 1, centerTileY - brushRadius;
      var dy := -brushRadius;
      while dy <= brushRadius
        invariant -brushRadius <= dy <= brushRadius + 1 || (brushRadius < 0 && dy == -brushRadius)
        invariant tilemap.tileSize == ts
        invariant PaintedUpTo(tilemap.tiles, t0, tileValue, tilesPerRow, rows, x0, x1, y0, centerTileY + dy, x0)
      {
        var dx := -brushRadius;
        while dx <= brushRadius
          invariant -brushRadius <= dx <= brushRadius + 1
          invariant tilemap.tileSize == ts
          invariant PaintedUpTo(tilemap.tiles, t0, tileValue, tilesPerRow, rows, x0, x1, y0, centerTileY + dy, centerTileX + dx)
        {
          var tileX := centerTileX + dx;
          var tileY := centerTileY + dy;
          var index := tileY * tilesPerRow + tileX;
          PaintStep(t0, tilemap.tiles, tileValue, tilesPerRow, rows, x0, x1, y0, tileY, tileX);
          if tileX >= 0 && tileX < tilesPerRow && tileY >= 0 && tileY < rows &&
             index >= 0 && index < |tilemap.tiles|
          {
            tilemap := tilemap.(tiles := tilemap.tiles[index := tileValue]);
          }
          dx := dx + 1;
        }
        RowDone(tilemap.tiles, t0, tileValue, tilesPerRow, rows, x0, x1, y0, centerTileY + dy);
        dy := dy + 1;
      }
      BrushDone(tilemap.tiles, t0, tileValue, b);
    }

    /** `ClearTilemap`: every tile becomes empty; the size stays. */
    method ClearTilemap()
      modifies this`tilemap
      ensures tilemap == old(tilemap).(tiles := Cleared(|old(tilemap.tiles)|))
    {
      var i := 0;
      while i < |tilemap.tiles|
        invariant 0 <= i <= |tilemap.tiles|
        invariant tilemap.tileSize == old(tilemap.tileSize) && |tilemap.tiles| == |old(tilemap.tiles)|
        invariant forall j :: 0 <= j < i ==> tilemap.tiles[j] == 0
      {
        tilemap := tilemap.(tiles := tilemap.tiles[i := 0]);
        i := i + 1;
      }
      assert tilemap.tiles == Cleared(|old(tilemap.tiles)|);
    }

    /** `SaveTilemap`: the serialized tilemap, which the source prints. */
    method SaveTilemap() returns (serialized: string)
      requires Valid()
      ensures serialized == Serialized(tilemap)
    {
      serialized := Serialize(tilemap);
    }

    /** The loop of the T key: the first empty tile becomes 1; the result
        says whether there was one. */
    method AddTile() returns (added: bool)
      modifies this`tilemap
      ensures added <==> FirstZero(old(tilemap.tiles)).Some?
      ensures tilemap == if added then old(tilemap).(tiles := old(tilemap.tiles)[FirstZero(old(tilemap.tiles)).value := 1])
                         else old(tilemap)
    {
      added := false;
      var i := 0;
      while i < |tilemap.tiles| && !added
        invariant 0 <= i <= |tilemap.tiles| == |old(tilemap.tiles)|
        invariant !added ==> tilemap == old(tilemap) && forall j :: 0 <= j < i ==> tilemap.tiles[j] != 0
        invariant added ==> (i > 0 && FirstZero(old(tilemap.tiles)) == Some(i - 1) &&
          tilemap == old(tilemap).(tiles := old(tilemap.tiles)[i - 1 := 1]))
      {
        if tilemap.tiles[i] == 0 {
          tilemap := tilemap.(tiles := tilemap.tiles[i := 1]);
          added := true;
        }
        i := i + 1;
      }
    }

    /** The T key: a step of `TStep` on the tiles and the `full` flag. */
    method PressT()
      modifies this`tilemap, this`full
      ensures tilemap.tileSize == old(tilemap.tileSize)
      ensures (tilemap.tiles, full) == TStep(old(tilemap.tiles), old(full))
    {
      if !full {
        var added := AddTile();
        if !added {
          full := true;
        }
      }
    }

    /** `HandleSidePanelInput`: the slider sets the brush size while the
        left button is held over it, and a left press on the clear button,
        the save button or the grid checkbox clears, dumps or toggles, in
        that order. The panel's own widgets are not consulted. */
    method HandleSidePanelInput(input: EditorInput, panelOffset: Vec2, inside: (Vec2, Rect) -> bool)
      returns (dumps: seq<string>)
      requires Valid()
      modifies this`brushSize, this`tilemap, this`drawGrid
      ensures Valid()
      ensures var p := input.mousePosition;
        brushSize == if inside(p, SliderArea(panelOffset)) && input.leftDown
                     then SliderBrushSize(p.x - SliderArea(panelOffset).x, PANEL_CONTROL_WIDTH)
                     else old(brushSize)
      ensures tilemap == if inside(input.mousePosition, ClearArea(panelOffset)) && input.leftPressed
                         then old(tilemap).(tiles := Cleared(|old(tilemap.tiles)|)) else old(tilemap)
      ensures dumps == if inside(input.mousePosition, SaveArea(panelOffset)) && input.leftPressed
                       then [Serialized(tilemap)] else []
      ensures drawGrid == (old(drawGrid) != (inside(input.mousePosition, GridToggleArea(panelOffset)) && input.leftPressed))
    {
      var mousePos := input.mousePosition;
      var sliderRect := SliderArea(panelOffset);
      if inside(mousePos, sliderRect) && input.leftDown {
        var relativeX := mousePos.x - sliderRect.x;
        brushSize := SliderBrushSize(relativeX, sliderRect.width);
      }
      if inside(mousePos, ClearArea(panelOffset)) && input.leftPressed {
        ClearTilemap();
      }
      dumps := [];
      if inside(mousePos, SaveArea(panelOffset)) && input.leftPressed {
        var serialized := SaveTilemap();
        dumps := [serialized];
      }
      if inside(mousePos, GridToggleArea(panelOffset)) && input.leftPressed {
        drawGrid := !drawGrid;
      }
    }

    /** The drawing-area half of `HandleInput`: nothing happens when the
        mouse is right of the drawing area, a tile index outside the
        tilemap aborts the frame, and otherwise the held buttons paint a
        stroke around the mouse. */
    method DrawingAreaInput(input: EditorInput) returns (aborted: bool)
      requires Valid()
      modifies this`tilemap
      ensures Valid() && tilemap.tileSize == old(tilemap.tileSize)
      ensures aborted <==> (input.mousePosition.x < (screenWidth - PANEL_WIDTH) as real &&
        var index := TileIndex(input.mousePosition, old(tilemap.tileSize), screenWidth - PANEL_WIDTH);
        index < 0 || index >= |old(tilemap.tiles)|)
      ensures tilemap.tiles == StrokedTiles(input, old(tilemap), brushSize, screenWidth, screenHeight)
    {
      aborted := false;
      var mousePos := input.mousePosition;
      var drawingAreaWidth := screenWidth - PANEL_WIDTH;
      if mousePos.x < drawingAreaWidth as real {
        var tileIndex := TileIndex(mousePos, tilemap.tileSize, drawingAreaWidth);
        if tileIndex < 0 || tileIndex >= |tilemap.tiles| {
          return true;
        }
        if input.leftDown {
          DrawBrushTiles(mousePos, 1, drawingAreaWidth);
        }
        if input.rightDown {
          DrawBrushTiles(mousePos, 0, drawingAreaWidth);
        }
      }
    }

    /** The mouse part of `HandleInput`: the panel's controls when the mouse
        is over the panel, and the drawing-area stroke otherwise. */
    method PointerInput(input: EditorInput, inside: (Vec2, Rect) -> bool) returns (dumps: seq<string>, aborted: bool)
      requires Valid()
      modifies this`drawGrid, this`tilemap, this`brushSize
      ensures Valid() && tilemap.tileSize == old(tilemap.tileSize)
      ensures aborted <==> Aborts(input.mousePosition, screenWidth, screenHeight, old(tilemap))
      ensures !InPanelArea(input.mousePosition, screenWidth, screenHeight) ==>
        brushSize == old(brushSize) && drawGrid == old(drawGrid) && dumps == [] &&
        tilemap.tiles == StrokedTiles(input, old(tilemap), brushSize, screenWidth, screenHeight)
      ensures InPanelArea(input.mousePosition, screenWidth, screenHeight) ==>
        var p, offset := input.mousePosition, PanelOffset();
        && brushSize == (if inside(p, SliderArea(offset)) && input.leftDown
                         then SliderBrushSize(p.x - SliderArea(offset).x, PANEL_CONTROL_WIDTH)
                         else old(brushSize))
        && tilemap == (if inside(p, ClearArea(offset)) && input.leftPressed
                       then old(tilemap).(tiles := Cleared(|old(tilemap.tiles)|)) else old(tilemap))
        && dumps == (if inside(p, SaveArea(offset)) && input.leftPressed then [Serialized(tilemap)] else [])
        && drawGrid == (old(drawGrid) != (inside(p, GridToggleArea(offset)) && input.leftPressed))
    {
      dumps, aborted := [], false;
      var mousePos := input.mousePosition;
      var panelOffset := PanelOffset();
      if mousePos.x >= panelOffset.x && mousePos.x < screenWidth as real &&
         mousePos.y >= 0.0 && mousePos.y < screenHeight as real
      {
        dumps := HandleSidePanelInput(input, panelOffset, inside);
      } else {
        aborted := DrawingAreaInput(input);
      }
    }

    /** `HandleInput` for one frame. The G key toggles the grid; over the
        panel the panel's controls act; over the drawing area a tile index
        outside the tilemap ends the frame at once, and otherwise the held
        buttons paint a stroke; then the T key steps and the P key dumps
        the tilemap. */
    method HandleInput(input: EditorInput, inside: (Vec2, Rect) -> bool) returns (dumps: seq<string>)
      requires Valid()
      modifies this`drawGrid, this`tilemap, this`brushSize, this`full
      ensures Valid() && tilemap.tileSize == old(tilemap.tileSize)
      ensures old(full) ==> full
      ensures Aborts(input.mousePosition, screenWidth, screenHeight, old(tilemap)) ==>
        dumps == [] && tilemap == old(tilemap) && full == old(full) && brushSize == old(brushSize) &&
        drawGrid == (old(drawGrid) != input.keyG)
      ensures !InPanelArea(input.mousePosition, screenWidth, screenHeight) ==>
        brushSize == old(brushSize) && drawGrid == (old(drawGrid) != input.keyG)
      ensures !InPanelArea(input.mousePosition, screenWidth, screenHeight) &&
              !Aborts(input.mousePosition, screenWidth, screenHeight, old(tilemap)) ==>
        (tilemap.tiles, full) ==
        TKey(StrokedTiles(input, old(tilemap), brushSize, screenWidth, screenHeight), old(full), input.keyT)
      ensures InPanelArea(input.mousePosition, screenWidth, screenHeight) ==>
        var cleared := inside(input.mousePosition, ClearArea(PanelOffset())) && input.leftPressed;
        (tilemap.tiles, full) ==
        TKey(if cleared then Cleared(|old(tilemap.tiles)|) else old(tilemap.tiles), old(full), input.keyT)
      ensures !InPanelArea(input.mousePosition, screenWidth, screenHeight) &&
              !Aborts(input.mousePosition, screenWidth, screenHeight, old(tilemap)) ==>
        dumps == if input.keyP then [Serialized(tilemap)] else []
      ensures InPanelArea(input.mousePosition, screenWidth, screenHeight) ==>
        var p, offset := input.mousePosition, PanelOffset();
        brushSize == if inside(p, SliderArea(offset)) && input.leftDown
                     then SliderBrushSize(p.x - SliderArea(offset).x, PANEL_CONTROL_WIDTH)
                     else old(brushSize)
      ensures InPanelArea(input.mousePosition, screenWidth, screenHeight) ==>
        drawGrid == ((old(drawGrid) != input.keyG) !=
                     (inside(input.mousePosition, GridToggleArea(PanelOffset())) && input.leftPressed))
      ensures InPanelArea(input.mousePosition, screenWidth, screenHeight) ==>
        var p, offset := input.mousePosition, PanelOffset();
        var afterClear := if inside(p, ClearArea(offset)) && input.leftPressed
                          then old(tilemap).(tiles := Cleared(|old(tilemap.tiles)|)) else old(tilemap);
        dumps == (if inside(p, SaveArea(offset)) && input.leftPressed then [Serialized(afterClear)] else []) +
                 (if input.keyP then [Serialized(tilemap)] else [])
    {
      if input.keyG {
        drawGrid := !drawGrid;
      }
      var aborted;
      dumps, aborted := PointerInput(input, inside);
      if aborted {
        return;
      }
      var keyDumps := KeyInput(input);
      dumps := dumps + keyDumps;
    }

    /** The end of `HandleInput`: the T key steps, then the P key dumps the
        tilemap. */
    method KeyInput(input: EditorInput) returns (dumps: seq<string>)
      requires Valid()
      modifies this`tilemap, this`full
      ensures Valid() && tilemap.tileSize == old(tilemap.tileSize)
      ensures (tilemap.tiles, full) == TKey(old(tilemap.tiles), old(full), input.keyT)
      ensures dumps == if input.keyP then [Serialized(tilemap)] else []
    {
      if input.keyT {
        PressT();
      }
      dumps := [];
      if input.keyP {
        var serialized := Serialize(tilemap);
        dumps := [serialized];
      }
    }

    /** The panel's top-left corner on screen. */
    function PanelOffset(): Vec2
      reads this
    {
      Vec2((screenWidth - PANEL_WIDTH) as real, 0.0)
    }

    /** `Update`: the time accumulates, and a log line is due when more
        than a second has passed since the last one. */
    method Update(deltaTime: real) returns (logged: bool)
      modifies this`accumulatedTime, this`lastLog
      ensures accumulatedTime == old(accumulatedTime) + deltaTime
      ensures logged <==> accumulatedTime - old(lastLog) > 1.0
      ensures lastLog == if logged then accumulatedTime else old(lastLog)
      ensures old(lastLog) <= old(accumulatedTime) && deltaTime >= 0.0 ==> lastLog <= accumulatedTime
    {
      accumulatedTime := accumulatedTime + deltaTime;
      logged := false;
      if accumulatedTime - lastLog > 1.0 {
        lastLog := accumulatedTime;
        logged := true;
      }
    }

    /** `DrawTiles`: the tilemap drawn over the drawing area. */
    method DrawTiles() returns (requests: seq<DrawRequest>)
      requires DrawDefined(tilemap, screenWidth - PANEL_WIDTH)
      ensures requests == DrawRequests(tilemap, screenWidth - PANEL_WIDTH)
    {
      requests := Draw(tilemap, screenWidth - PANEL_WIDTH, screenHeight);
    }

    /** `Cleanup`: the side panel, if there is one, lets go of its widgets. */
    method Cleanup()
      modifies PanelObjects()
      ensures sidePanel.Some? ==> sidePanel.value.components == [] && sidePanel.value.Valid()
    {
      if sidePanel.Some? {
        sidePanel.value.Cleanup();
      }
    }
  }

  /** The brush loop has painted, over the columns `x0` to `x1 - 1`, the
      rows `y0` to `y - 1` and the first columns of row `y` up to `x - 1`;
      every other tile is as in `t0`. */
  ghost predicate PaintedUpTo(tiles: seq<int>, t0: seq<int>, v: int, tilesPerRow: int, rows: int,
                              x0: int, x1: int, y0: int, y: int, x: int)
  {
    |tiles| == |t0| &&
    forall i :: 0 <= i < |t0| ==>
      tiles[i] == (if InRect(tilesPerRow, rows, i, x0, x1, y0, y) || InRect(tilesPerRow, rows, i, x0, x, y, y + 1)
                   then v else t0[i])
  }

  /** One step of the inner brush loop: writing tile (`x`, `y`) when it is
      inside the grid and the tilemap extends the painted part of row `y`
      by one column, and leaves the rest as it was. */
  lemma PaintStep(t0: seq<int>, tiles: seq<int>, v: int, tilesPerRow: int, rows: int,
                  x0: int, x1: int, y0: int, y: int, x: int)
    requires PaintedUpTo(tiles, t0, v, tilesPerRow, rows, x0, x1, y0, y, x)
    requires x0 <= x < x1
    ensures var index := y * tilesPerRow + x;
      PaintedUpTo(if 0 <= x < tilesPerRow && 0 <= y < rows && 0 <= index < |tiles| then tiles[index := v] else tiles,
                  t0, v, tilesPerRow, rows, x0, x1, y0, y, x + 1)
  {
    var index := y * tilesPerRow + x;
    var inGrid := 0 <= x < tilesPerRow && 0 <= y < rows && 0 <= index < |tiles|;
    var tiles' := if inGrid then tiles[index := v] else tiles;
    forall i | 0 <= i < |t0|
      ensures tiles'[i] == (if InRect(tilesPerRow, rows, i, x0, x1, y0, y) ||
                               InRect(tilesPerRow, rows, i, x0, x + 1, y, y + 1) then v else t0[i])
    {
      PaintStepAt(i, |tiles|, tilesPerRow, rows, x0, y, x, index);
    }
  }

  /** The cell written by a step is the one cell that joins the painted
      part of row `y`; for every other cell the painted part is as before. */
  lemma PaintStepAt(i: int, n: int, tilesPerRow: int, rows: int, x0: int, y: int, x: int, index: int)
    requires 0 <= i < n && x0 <= x && index == y * tilesPerRow + x
    ensures 0 <= x < tilesPerRow && 0 <= y < rows && 0 <= index < n && i == index ==>
      InRect(tilesPerRow, rows, i, x0, x + 1, y, y + 1)
    ensures !(0 <= x < tilesPerRow && 0 <= y < rows && 0 <= index < n && i == index) ==>
      InRect(tilesPerRow, rows, i, x0, x + 1, y, y + 1) == InRect(tilesPerRow, rows, i, x0, x, y, y + 1)
  {
    if 0 <= x < tilesPerRow && 0 <= y < rows && 0 <= index < n && i == index {
      CellOf(index, tilesPerRow, x, y);
    } else if tilesPerRow > 0 {
      var col, row := i % tilesPerRow, i / tilesPerRow;
      if col == x && row == y {
        SameCell(i, tilesPerRow, x, y);
        assert !(y < rows);
        assert !InRect(tilesPerRow, rows, i, x0, x + 1, y, y + 1);
      } else {
        NewColumnOnly(tilesPerRow, rows, i, x0, x, y, col, row);
      }
    }
  }

  lemma NewColumnOnly(tilesPerRow: int, rows: int, i: int, x0: int, x: int, y: int, col: int, row: int)
    requires tilesPerRow > 0 && col == i % tilesPerRow && row == i / tilesPerRow && !(col == x && row == y)
    ensures InRect(tilesPerRow, rows, i, x0, x + 1, y, y + 1) == InRect(tilesPerRow, rows, i, x0, x, y, y + 1)
  {
  }

  lemma SameCell(i: int, tilesPerRow: int, x: int, y: int)
    requires tilesPerRow > 0 && i >= 0 && i % tilesPerRow == x && i / tilesPerRow == y
    ensures i == y * tilesPerRow + x && 0 <= x < tilesPerRow && 0 <= y
  {
  }

  /** A finished row: all of row `y` is painted, and the next row starts. */
  lemma RowDone(tiles: seq<int>, t0: seq<int>, v: int, tilesPerRow: int, rows: int,
                x0: int, x1: int, y0: int, y: int)
    requires y0 <= y && PaintedUpTo(tiles, t0, v, tilesPerRow, rows, x0, x1, y0, y, x1)
    ensures PaintedUpTo(tiles, t0, v, tilesPerRow, rows, x0, x1, y0, y + 1, x0)
  {
  }

  /** The finished loop has painted exactly the brush's square. */
  lemma BrushDone(tiles: seq<int>, t0: seq<int>, v: int, b: Brush)
    requires var r := b.radius;
      PaintedUpTo(tiles, t0, v, b.tilesPerRow, b.rows, b.centerX - r, b.centerX + r + 1, b.centerY - r,
                  if r < 0 then b.centerY - r else b.centerY + r + 1, b.centerX - r)
    ensures tiles == Brushed(t0, b, v)
  {
  }
}
