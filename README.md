# Tile sandbox and gravity demo — a Dafny model

This project models the core of a small raylib/EnTT C++ application.
The application has two simulations built on an entity registry:

- **GravityGame**: a box rests on screen until SPACE throws it. Then a
  physics system pulls un-grounded bodies down and a collision system
  lands them on a platform.
- **Sandbox**: a tile editor. The left mouse button paints tiles with a
  square brush and the right button erases them. T fills the first
  empty tile and P dumps the map as text. A side panel on the right
  holds a brush-size slider, Clear / Save buttons and a grid checkbox.

The model keeps the shape of the source:

- Each header becomes one Dafny module: `Components`, `Maths`,
  `Tilemap`, `Systems`, `GravityGame`, `GUIComponents`, `SidePanel`
  and `SandboxEditor`.
- Two modules serve the rest. `Common` holds the option type,
  truncating conversions and sequence removal. `Ecs` holds the entity
  registry as a value.
- Objects whose fields the C++ updates in place are Dafny classes:
  `Registry`, `TextInterface`, `Game`, every GUI widget,
  `SidePanelGUI` and `Sandbox`. Their methods carry `modifies` frames
  and state their whole new state.
- Pure computations are functions. Each one has lemmas that state what
  it means.

The registry (`Ecs.World`) is a value. It holds one map per component
type, keyed by entity, plus the creation order of the entities. A view
is modelled as `Select(order, set)`: the entities of the set, in
creation order. Each system is a class or method that rewrites the
registry. It is proved equal to a specification function on `World`,
such as `Gravitated`, `CollisionResult`, `SpaceResult`,
`WithTextDrawables` or `Pipeline`, and the lemmas are stated about
those functions.

Things the game cannot see are parameters:

- Keyboard and mouse state: `GameKeys`, `EditorInput`, `Mouse`.
- raylib's point-in-rectangle and rectangle-overlap tests:
  `inside: (Vec2, Rect) -> bool` and `overlaps: (Rect, Rect) -> bool`.
- `MeasureText`: `measure`.

Text written to the console is returned as a value. Callbacks
(`std::function`) are modelled as "is set" flags, and invoking a
callback is reported as a result value.

Where the prose description of the program and the code disagree, the
model follows the code:

- `Tilemap::Serialize` starts a new line every `tileSize` values, not
  every row of the map. It ends with a trailing space and no newline.
  `Tilemap.SerializedBreaksEveryTileSize` pins this down.
- The collision system marks the *obstacle* as colliding, never the
  droppable. So a droppable's `Grounded` follows its own flag, which
  the tick never changes, and the box loses `Grounded` on its first
  tick even when it overlaps the platform. `GravityGame.CollisionGrounded`
  and `GravityGame.FirstUpdate` state this.
- The program reports no invalid-dimension or out-of-bounds errors:
  - the tile vector is resized to a computed count;
  - a click outside the map returns early from `HandleInput`;
  - `Tilemap::Draw` divides by zero for a zero tile size, and for a row length of zero when some tile is positive. The model excludes both cases (see `Tilemap.Draw` under "## Left out"). `Tilemap::Serialize` takes the tile size modulo too, and the model requires a positive tile size there as well (see `Tilemap.Serialize`).

## Model

| member | source | states |
|---|---|---|
| Common.CDiv | include/Sandbox.h:53-56 | C++ integer division truncates toward zero, for either sign of the dividend |
| Common.Trunc | include/Sandbox.h:400-401 | a float-to-int cast truncates toward zero: the result is within one of the input, on the zero side |
| Common.Clamp | include/GUIComponents.h:470 | `std::clamp` lies in [lo, hi], is the identity inside it and the nearer bound outside it |
| Common.RemoveAll | include/SidePanel.h:155-158 | erase/remove_if keeps exactly the entries different from the removed one |
| Common.RemoveAllCount | include/SidePanel.h:155-158 | the erase shortens the list by the number of occurrences of the removed entry |
| Common.RemoveAllAbsent | include/SidePanel.h:155-158 | removing an entry that is not held leaves the list unchanged |
| Common.RemoveAllAppend | include/SidePanel.h:155-158 | removal distributes over concatenation |
| Maths.GcdDividesBoth | include/Maths.h:4-21 | the Euclidean recursion yields a common divisor of both inputs |
| Maths.GcdGreatest | include/Maths.h:4-21 | every common divisor divides the result, so it is the greatest one |
| Maths.GcdGreatestAll | include/Maths.h:4-21 | the same for all common divisors at once |
| Maths.GcdZeroLeft | include/Maths.h:4-21 | gcd(0, b) = b: the first remainder step swaps the arguments |
| Maths.ComputeGcd | include/Maths.h:4-21 | the remainder loop returns gcd(a, b): a common divisor that every common divisor divides; gcd(a, 0) = a and gcd(0, b) = b |
| Maths.Gcd800By600 | include/Sandbox.h:358 | the default 800×600 window gives a tile size of 200 |
| Components.SetMass | include/Components.h:51-55 | sets the mass; the inverse mass is its reciprocal, or 0 for mass 0; nothing else changes |
| Components.SetMassLastWins | include/Components.h:51-55 | setting the mass twice equals setting it once to the second value |
| Components.DefaultBodyConsistent | include/Components.h:37-49 | the default body (mass 1, inverse mass 1) is consistent with `setMass` |
| Components.DrawableOf | include/Components.h:140-144 | the `Drawable` built from a color has that default tint and a white tint |
| Components.NewAnimation | include/Components.h:121-138 | an animation exists iff the frame count is positive (otherwise the program exits); it starts at frame 0 with no elapsed time |
| Ecs.Select | include/GravityGame.h:35-36 | a view lists exactly the entities that hold the components, and no more than exist |
| Ecs.SelectDistinct | include/GravityGame.h:35-36 | a view visits no entity twice |
| Ecs.SelectOrdered | include/GravityGame.h:35-36 | a view visits entities in creation order |
| Ecs.Registry.constructor | include/Simulation.h:49 | a new registry is empty and well formed |
| Ecs.Registry.Create | include/GravityGame.h:114 | `create` returns an entity not in use and appends it with no components |
| Ecs.Registry.Clear | include/GravityGame.h:286-290 | `clear` removes all entities and components; the gravity context survives |
| Systems.WithTextDrawables | include/Systems.h:44-51 | every `Text` entity has a `Drawable`; existing ones are kept; new ones take the text's color; nothing else changes |
| Systems.EmplaceDuringView | include/Systems.h:44-51 | emplacing during the view gives `WithTextDrawables`; it reports an update iff the view was non-empty |
| Systems.TextSyncIdempotent | include/Systems.h:39-54 | after one pass no text lacks a `Drawable`, and a second pass changes nothing |
| Systems.TextSyncWellFormed | include/Systems.h:39-54 | the pass keeps the registry well formed |
| Systems.TextInterface.constructor | include/Systems.h:62 | a text system starts enabled |
| Systems.TextInterface.Toggle | include/Systems.h:56-59 | `Toggle` flips the enabled flag |
| Systems.TextInterface.OnUpdate | include/Systems.h:39-54 | disabled: reports false and changes nothing; enabled: gives `WithTextDrawables` and reports true iff some text lacked a `Drawable` |
| Tilemap.Serialize | include/Tilemap.h:23-37 | the loop builds exactly `Serialized`: the header, then each value and a space, with a newline before every index that is a non-zero multiple of tileSize |
| Tilemap.SerializeRoundTrip | include/Tilemap.h:23-37 | the text determines the tilemap: parsing it back gives the same tile size and tiles |
| Tilemap.SerializedEmpty | include/Tilemap.h:26 | an empty map serializes to the header alone |
| Tilemap.SerializedTwoByTwo | include/Tilemap.h:23-37 | with tile size 20, four tiles are written on one line |
| Tilemap.SerializedBreaksEveryTileSize | include/Tilemap.h:30-33 | the line break follows the tile size, not the row length: tile size 2 breaks after every two values |
| Tilemap.SerializedEndsWithSpace | include/Tilemap.h:23-37 | a non-empty dump ends in a space, with no trailing newline |
| Tilemap.TileColor | include/Tilemap.h:10-16 | the palette color for an in-range value, otherwise black |
| Tilemap.FilledIndices | include/Tilemap.h:49-52 | exactly the indices of tiles with a positive value, in increasing order |
| Tilemap.RowLength | include/Tilemap.h:41-55 | the row length is the truncated quotient of width by tile size, cast to `size_t`: the plain quotient for a non-negative width, and 2^64 plus the negative quotient for a negative width |
| Tilemap.Draw | include/Tilemap.h:39-67 | the loop issues exactly `DrawRequests`: one rectangle per positive tile, in index order, and none for an empty map, whatever the width |
| Tilemap.NegativeWidthOneRow | include/Tilemap.h:41-58 | with a negative width (and fewer than 2^63 tiles), every positive tile is drawn in row 0, at column i |
| Tilemap.DrawRequestsExact | include/Tilemap.h:49-65 | a tile is drawn iff its value is positive, at column i % tilesPerRow and row i / tilesPerRow, with its palette color |
| Tilemap.TileRequestPlacement | include/Tilemap.h:54-64 | a drawn square has the tile size as its side and lies inside its row; its tile index can be read back from its position, so no tile wraps into a neighbouring row |
| GravityGame.GravitatedEffect | include/GravityGame.h:64-80 | physics adds gravity × dt to the vertical velocity of every body with a rectangle that is not grounded, and changes nothing else |
| GravityGame.GravitatedWellFormed | include/GravityGame.h:64-80 | physics keeps the registry well formed |
| GravityGame.Accelerate | include/GravityGame.h:72-76 | the loop over the view adds the impulse to exactly the visited bodies |
| GravityGame.PhysicsOnUpdate | include/GravityGame.h:67-79 | the system's effect is `Gravitated` and it reports true |
| GravityGame.LastHitIsLast | include/GravityGame.h:41-48 | the obstacle whose velocity a droppable takes is the last overlapping one in view order |
| GravityGame.LandedTwice | include/GravityGame.h:46-47 | landing on two obstacles in turn equals landing on the second |
| GravityGame.CheckObstacle | include/GravityGame.h:43-48 | one overlap test: on a hit, the obstacle is flagged and the droppable stops falling and takes the obstacle's x-velocity; otherwise nothing changes |
| GravityGame.CollideOne | include/GravityGame.h:41-49 | the inner loop over the obstacles for one droppable gives `InnerResult` |
| GravityGame.CollideAll | include/GravityGame.h:38-58 | the outer loop over droppables gives `Collided` |
| GravityGame.CollisionOnUpdate | include/GravityGame.h:31-61 | the system's effect is `CollisionResult` and it reports true |
| GravityGame.CollisionWellFormed | include/GravityGame.h:31-61 | collision keeps the registry well formed |
| GravityGame.CollisionFlags | include/GravityGame.h:41-49 | an obstacle's flag is set afterwards iff it was set or some droppable overlaps it; flags are never cleared; non-obstacles' flags are untouched; only flags, bodies and `Grounded` change |
| GravityGame.CollisionGrounded | include/GravityGame.h:51-57 | a droppable is grounded afterwards iff its own, unchanged flag is set; other entities keep their `Grounded` |
| GravityGame.CollisionVelocities | include/GravityGame.h:43-48 | a droppable that overlaps some obstacle gets velocity (x of the last one hit, 0); one that overlaps none, and every other body, is unchanged |
| GravityGame.MarkDropped | include/GravityGame.h:142-157 | the loop marks the visited boxes dropped, throws them (vy = 9) and collects the not-yet-dropped ones; `wasDropped` is true iff the view is non-empty |
| GravityGame.RemoveGrounded | include/GravityGame.h:160-163 | removes `Grounded` from exactly the collected entities |
| GravityGame.PushPlatforms | include/GravityGame.h:167-171 | sets vx = 2 on exactly the visited bodies |
| GravityGame.DropPhases | include/GravityGame.h:140-163 | the three loops compose to `AfterDrop` |
| GravityGame.LaunchBoxes | include/GravityGame.h:142-163 | marking and un-grounding give `AfterDrop`; `wasDropped` holds iff some grounded droppable body exists |
| GravityGame.DropBoxes | include/GravityGame.h:140-174 | the SPACE handler's effect is `SpaceResult` |
| GravityGame.SpaceDroppables | include/GravityGame.h:140-174 | every grounded droppable body ends up dropped, and exactly the not-yet-dropped ones lose `Grounded`; other droppables are untouched |
| GravityGame.SpaceBodies | include/GravityGame.h:147-171 | thrown boxes get vy = 9; other droppables keep their velocity; all non-droppable bodies get vx = 2 iff any candidate existed |
| GravityGame.SpaceWellFormed | include/GravityGame.h:140-174 | SPACE keeps the registry well formed |
| GravityGame.SpaceTwiceLaunchesNothing | include/GravityGame.h:149-155 | after SPACE no box is left to throw: a second press throws nothing |
| GravityGame.GridSizeKeys | include/GravityGame.h:181-196 | without keys the size is kept; LEFT never goes below 5 and subtracts 5 above 10; RIGHT wins over LEFT; RIGHT adds 5 unless that reaches a quarter of the width, in which case the size becomes a quarter of the height |
| GravityGame.GridCapDefaultWindow | include/GravityGame.h:184-187 | in the 800×600 window the RIGHT cap sets the size to 150 (a quarter of the height) |
| GravityGame.SceneComponents | include/GravityGame.h:111-128 | `Init` adds gravity, then box, platform and text in that order: the box grounded at (600, 0, 20, 20) and at rest; the platform collidable, not droppable, at y = height − 20; the text not yet drawable |
| GravityGame.SceneWellFormed | include/GravityGame.h:106-134 | the scene is well formed when the entities are new |
| GravityGame.CreateScene | include/GravityGame.h:111-128 | creating the entities gives `Scene` with three distinct new entities |
| GravityGame.RunAll | include/GravityGame.h:236-239 | running the systems in order gives `Pipeline` |
| GravityGame.PipelineKeepsFlagsClear | include/GravityGame.h:236-239 | no system sets a droppable's colliding flag |
| GravityGame.InitPipeline | include/GravityGame.h:131-133 | the three systems created by `Init` compose to physics, then collision, then text (when enabled) |
| GravityGame.PhysicsThenCollision | include/GravityGame.h:131-132 | the first two systems of `Init` run collision on the gravitated registry |
| GravityGame.FirstUpdate | include/GravityGame.h:226-240 | the first update after `Init` takes `Grounded` off the box; the platform gains one tick of gravity; the prompt gets a black `Drawable` when the text system is on |
| GravityGame.Game.constructor | include/GravityGame.h:97-101 | a game starts paused, nothing dropped, grid on, grid size 20, no systems and an empty registry |
| GravityGame.Game.CreateSystem | include/GravityGame.h:304-315 | appends the system and changes no flag |
| GravityGame.Game.Init | include/GravityGame.h:106-134 | the registry becomes `Scene`; the systems list gains Physics, Collision and a fresh enabled text system |
| GravityGame.Game.HandleInput | include/GravityGame.h:138-196 | SPACE gives `SpaceResult`; G toggles the grid; arrows follow `GridSizeAfter`; nothing else changes |
| GravityGame.Game.ResizeGrid | include/GravityGame.h:181-196 | the grid size becomes `GridSizeAfter` |
| GravityGame.Game.Update | include/GravityGame.h:226-240 | one update gives `Pipeline` of the current systems |
| GravityGame.Game.Cleanup | include/GravityGame.h:286-290 | the registry is cleared; only the gravity context remains |
| GUIComponents.GetFittingFontSize | include/GUIComponents.h:55-67 | the largest size not above the maximum whose text fits, never below the minimum; the maximum if it fits; every larger allowed size does not fit |
| GUIComponents.GUIButton.constructor | include/GUIComponents.h:72-76 | bounds, text and color as given; black text; gray hover, dark-gray pressed; visible and enabled; no click handler |
| GUIComponents.GUIButton.SetOnClick | include/GUIComponents.h:117 | installs or clears the click handler |
| GUIComponents.GUIButton.HandleInput | include/GUIComponents.h:101-115 | disabled: nothing; otherwise hovered iff the mouse is inside, pressed iff hovered and held; the handler fires iff inside, just pressed and installed |
| GUIComponents.GUILabel.constructor | include/GUIComponents.h:130-134 | bounds, text, color and font size as given; visible and enabled |
| GUIComponents.GUILabel.SetText | include/GUIComponents.h:151-152 | `GetText` returns what was set |
| GUIComponents.GUICheckbox.constructor | include/GUIComponents.h:163-167 | bounds, label and state as given; green check mark; visible and enabled |
| GUIComponents.GUICheckbox.SetChecked | include/GUIComponents.h:211-212 | `IsChecked` returns what was set |
| GUIComponents.GUICheckbox.SetOnChanged | include/GUIComponents.h:210 | installs or clears the change handler |
| GUIComponents.GUICheckbox.HandleInput | include/GUIComponents.h:194-208 | a press inside the box flips the state and reports the new state iff a handler is installed; otherwise nothing changes |
| GUIComponents.IndexSteps | include/GUIComponents.h:360-376 | next and previous stay in range, undo each other and wrap at both ends |
| GUIComponents.GUIImageBrowser.constructor | include/GUIComponents.h:224-229 | starts at index 0 and loads the first image, or none for an empty list |
| GUIComponents.GUIImageBrowser.LoadCurrentImage | include/GUIComponents.h:342-358 | the texture is the image at the current index, or none if out of range |
| GUIComponents.GUIImageBrowser.AddImage | include/GUIComponents.h:325-332 | appends the path; loads it iff it is the first image |
| GUIComponents.GUIImageBrowser.SetImages | include/GUIComponents.h:334-339 | replaces the list and goes back to index 0 |
| GUIComponents.GUIImageBrowser.NextImage | include/GUIComponents.h:360-367 | advances with wrap-around; with at most one image nothing is reloaded |
| GUIComponents.GUIImageBrowser.PreviousImage | include/GUIComponents.h:369-376 | steps back with wrap-around; with at most one image nothing is reloaded |
| GUIComponents.GUIImageBrowser.HandleInput | include/GUIComponents.h:296-323 | a press on Prev or Next steps the index when there is more than one image; otherwise the index and texture are kept |
| GUIComponents.ScaleInRange | include/GUIComponents.h:455-458 | interpolating with a clamped fraction stays between min and max |
| GUIComponents.DragValue | include/GUIComponents.h:455-458 | the dragged value lies in [min, max], is min left of the track and max right of it |
| GUIComponents.GUISlider.constructor | include/GUIComponents.h:386-391 | the start value is clamped into [min, max]; visible, enabled, not dragging, no handler |
| GUIComponents.GUISlider.SetValue | include/GUIComponents.h:470 | the value becomes the clamped input, or the input itself when in range |
| GUIComponents.GUISlider.SetOnValueChanged | include/GUIComponents.h:468 | installs or clears the change handler |
| GUIComponents.GUISlider.HandleInput | include/GUIComponents.h:434-466 | dragging starts on a press in the handle area and stops on release; while dragging the value follows the mouse; the handler gets the new value iff it changed and a handler is installed |
| SidePanel.SidePanelGUI.constructor | include/SidePanel.h:29-32 | position, size and background as given; no widgets; brush size 1, circle brush, unfolded, no callbacks |
| SidePanel.SidePanelGUI.Init | include/SidePanel.h:34-103 | appends six fresh widgets in order: a title label, a 1–10 slider starting at 1, a red Clear and a green Save button, a checked grid checkbox and an image browser showing `assets/owo.png`, at y = 20, 60, 110, 150, 190 and 225, each with its callback wired |
| SidePanel.SidePanelGUI.SetPosition | include/SidePanel.h:105-109 | moves the panel |
| SidePanel.SidePanelGUI.AddComponent | include/SidePanel.h:142-145 | appends the widget, which the panel then owns |
| SidePanel.SidePanelGUI.RemoveComponent | include/SidePanel.h:147-164 | null is ignored; otherwise exactly that widget is removed |
| SidePanel.SidePanelGUI.Cleanup | include/SidePanel.h:136-140 | the panel holds no widgets |
| SidePanel.SidePanelGUI.SetOnClearCallback | include/SidePanel.h:167 | installs or clears the clear callback |
| SidePanel.SidePanelGUI.SetOnSaveCallback | include/SidePanel.h:168 | installs or clears the save callback |
| SidePanel.SidePanelGUI.SetOnGridToggleCallback | include/SidePanel.h:169 | installs or clears the grid callback |
| SidePanel.SidePanelGUI.SetOnBrushSizeChanged | include/SidePanel.h:170 | installs or clears the brush-size callback |
| SidePanel.SidePanelGUI.OnSliderValueChanged | include/SidePanel.h:53-59 | the brush size becomes the truncated slider value, forwarded iff a callback is installed |
| SidePanel.SidePanelGUI.OnClearClicked | include/SidePanel.h:68-70 | the clear callback runs iff installed |
| SidePanel.SidePanelGUI.OnSaveClicked | include/SidePanel.h:80-82 | the save callback runs iff installed |
| SidePanel.SidePanelGUI.OnGridChanged | include/SidePanel.h:91-93 | the new checkbox state is forwarded iff a callback is installed |
| SidePanel.RemovePreservesUnique | include/SidePanel.h:147-164 | removal keeps the owned widgets distinct |
| SidePanel.RemoveOwned | include/SidePanel.h:147-164 | removing an owned widget shortens the list by one; removing a foreign one changes nothing; the widget is gone either way |
| SidePanel.UniqueCount | include/SidePanel.h:142-145 | each owned widget occurs exactly once |
| SandboxEditor.Resize | include/Sandbox.h:56 | `vector::resize`: the new length, the old prefix kept, new cells filled |
| SandboxEditor.ResizeAgainKeeps | include/Sandbox.h:56 | resizing again to the same length changes nothing |
| SandboxEditor.DefaultGridTileCount | include/Sandbox.h:53-56 | the 600×600 drawing area of an 800×600 window has 30 × 30 = 900 tiles |
| SandboxEditor.BrushPaintsSquare | include/Sandbox.h:398-423 | every in-map cell within the brush radius of the center, in both axes, gets the brush value |
| SandboxEditor.BrushKeepsOutside | include/Sandbox.h:398-423 | every cell outside that square keeps its value |
| SandboxEditor.SinglePixelBrush | include/Sandbox.h:403-418 | with radius 0 (brush size 1 or 2) only the center cell can change |
| SandboxEditor.StrokeTile | include/Sandbox.h:121-130 | the left button paints 1 and the right button erases to 0; when both are held the erase wins |
| SandboxEditor.FirstZero | include/Sandbox.h:138-148 | the first empty tile, or none iff no tile is empty |
| SandboxEditor.TStepEffect | include/Sandbox.h:134-156 | once full, T does nothing; otherwise the first empty tile (by `FirstZero`) becomes 1 and `full` stays clear, and a map with no empty tile is left unchanged and becomes full; no other tile changes |
| SandboxEditor.TStepsFill | include/Sandbox.h:134-156 | each of the first k presses fills one empty tile and leaves `full` unset |
| SandboxEditor.FillThenFull | include/Sandbox.h:134-156 | one press more than the number of empty tiles fills the map and sets `full` |
| SandboxEditor.TStepsFullSticks | include/Sandbox.h:134 | once `full` is set, further presses change nothing |
| SandboxEditor.Cleared | include/Sandbox.h:377-384 | every tile is 0 and the count is kept |
| SandboxEditor.ClearedDrawsNothing | include/Sandbox.h:377-384 | a cleared map draws no tiles |
| SandboxEditor.SliderBrushSize | include/Sandbox.h:317-325 | the hard-coded slider always gives sizes 1 to 10: 1 at the left edge, 10 at the right |
| SandboxEditor.SliderMonotone | include/Sandbox.h:317-325 | dragging further right never gives a smaller brush |
| SandboxEditor.StrokedTiles | include/Sandbox.h:105-131 | the click's effect on the map keeps its length |
| SandboxEditor.Sandbox.constructor | include/Sandbox.h:42-47 | size as given; tile size = gcd(width, height); grid on, grid cell 32, brush 1; a cleared 20-px tilemap; a side panel with six widgets |
| SandboxEditor.Sandbox.Init | include/Sandbox.h:49-78 | the tilemap gets tile size 20 and is resized to the drawing area's tile count; a fresh panel at (width − 200, 0), 200 wide, full height, light gray, has six widgets and all four callbacks |
| SandboxEditor.Sandbox.DrawBrushTiles | include/Sandbox.h:398-423 | the nested loops give `Brushed` of the square brush around the mouse cell; the tile size is kept |
| SandboxEditor.Sandbox.ClearTilemap | include/Sandbox.h:377-384 | every tile becomes 0 and the count is kept |
| SandboxEditor.Sandbox.SaveTilemap | include/Sandbox.h:386-396 | writes the `Serialized` text of the map |
| SandboxEditor.Sandbox.AddTile | include/Sandbox.h:138-148 | fills the first empty tile; reports success iff one exists |
| SandboxEditor.Sandbox.PressT | include/Sandbox.h:134-156 | the tiles and the sticky `full` flag become `TStep` |
| SandboxEditor.Sandbox.HandleSidePanelInput | include/Sandbox.h:309-353 | slider press sets the brush from `SliderBrushSize`; Clear clears; Save dumps `Serialized`; the grid box toggles grid drawing; other presses do nothing |
| SandboxEditor.Sandbox.DrawingAreaInput | include/Sandbox.h:105-131 | aborts iff the mouse is in the drawing area but its tile index is outside the map; otherwise the tiles become `StrokedTiles` |
| SandboxEditor.Sandbox.PointerInput | include/Sandbox.h:93-131 | over the panel: the slider sets the brush, Clear clears, Save dumps the map as it stands after Clear, and the grid box toggles the grid; elsewhere: aborts iff the tile index is outside the map, otherwise the tiles become `StrokedTiles`, with brush, grid and dumps untouched |
| SandboxEditor.Sandbox.KeyInput | include/Sandbox.h:133-162 | T takes a `TStep` on the tiles and `full`; P dumps the serialized map after that step, and nothing else is dumped |
| SandboxEditor.Sandbox.HandleInput | include/Sandbox.h:80-163 | G toggles the grid; a click outside the map aborts the frame with nothing else changed; over the panel: brush from the slider, the grid toggled by G and then by the grid box, tiles cleared by Clear, and dumps = the Save dump of the cleared-or-kept map followed by P's dump; over the drawing area: the stroke, brush and G-toggled grid kept, and only P's dump; then T; `full` never resets |
| SandboxEditor.Sandbox.Update | include/Sandbox.h:165-175 | time accumulates; it logs iff more than one second has passed since the last log, and then the log time is reset |
| SandboxEditor.Sandbox.DrawTiles | include/Sandbox.h:208-212 | draws `DrawRequests` for the drawing area's width, which is negative when the window is narrower than the panel |
| SandboxEditor.Sandbox.Cleanup | include/Sandbox.h:214-222 | the panel's widgets are released |

## Left out

- Rendering: `Render`, `DrawGrid`, both `RenderSidePanelWithOffset` and every widget's rendering. They only call raylib drawing functions. The one rendering computation with content, `Tilemap::Draw`, is modelled as a list of drawing requests.
- Window and main loop: `Run`, `WindowShouldClose`, ESC/`CloseWindow`, the ISimulation base class and its window set-up. These are raylib I/O.
- Console output (`std::cout`, `std::cerr`): the printed text is returned where it carries content (the P and Save dumps, the update log) and dropped otherwise.
- Keyboard and mouse polling, `CheckCollisionPointRec`, `CheckCollisionRecs` and `MeasureText`: these are inputs of the model (`GameKeys`, `EditorInput`, `Mouse`, `inside`, `overlaps`, `measure`), not computed.
- Textures: `LoadTexture`/`UnloadTexture` are modelled by the path of the loaded image; a failed load is not modelled.
- EnTT internals: pool layout, storage order and signals. A view is the set of matching entities in creation order. Ecs.Registry.Create hands out increasing ids; entity recycling is not modelled.
- Floating point: `float` is modelled as `real`. Rounding, NaN and infinities are not modelled.
- The second `Update` per frame inside `GravityGame::Render` (GravityGame.h:259): only one update per call of `Game.Update` is modelled. Two frames' worth is `Pipeline` applied twice.
- `SidePanelGUI::HandleInput` and `Render` dispatch of widgets: the Sandbox never dispatches to its widgets. Sandbox.HandleSidePanelInput is modelled instead: it tests the hard-coded rectangles.
- `GUILabel::HandleInput` is empty and has no model.
- Callbacks (`std::function`): a callback is modelled as an "installed" flag, and invoking it as a returned value. What the Sandbox's callbacks do (clear, save, grid toggle, brush size) is modelled in `Sandbox` itself.
- Static locals (`full` in Sandbox::HandleInput, `last` in Sandbox::Update) are fields of the `Sandbox` object. In C++ they are shared by all Sandbox instances; with one instance the behaviour is the same.
- Tilemap.Draw: the `int` casts of a tile's column and row, and the pixel products `x * wh`, are unbounded integers here. In C++ they wrap only past 2^31, far beyond any window.
- Tilemap.Draw (and SandboxEditor.Sandbox.DrawTiles): `DrawDefined` requires a positive tile size and, when some tile is positive, a non-zero row length, which excludes `-tileSize < screenWidth < tileSize`. A tile size of 0 divides by zero at Tilemap.h:41, a row length of 0 at Tilemap.h:54-55: both are undefined in C++. A negative tile size is defined in C++ but is also excluded, because the program only ever uses tile size 20. The Sandbox gets 0 tiles when its drawing area is narrower than one tile, so it never reaches the zero row length.
- Tilemap.Serialize (and Tilemap.Serialized, Tilemap.SerializeRoundTrip): require a positive tile size. A tile size of 0 makes `i % 0` at Tilemap.h:30 undefined once there are two tiles. A negative tile size is defined in C++: `static_cast<size_t>` makes it at least 2^63, so no line break is ever written. The model leaves it out because every call site passes tile size 20.
- SandboxEditor.Sandbox.Init: requires a non-negative tile count. A negative count converts to a huge `size_t`, and the resize then fails.
- SandboxEditor.Sandbox.constructor: takes `nat` screen sizes. `gcd` of negative sizes differs between C++ `%` and the mathematical gcd.
- Maths.ComputeGcd: takes `nat` arguments. The C++ `gcd` is a template over any integral or floating-point type; its only caller passes `int`s, and the truncating `%` can give a negative result for negative inputs (gcd(4, -6) = -2). The Sandbox only passes its non-negative screen sizes.
- GUIComponents.GUISlider.HandleInput: requires a non-zero track width. The C++ divides by the width, and a width of 0 gives infinity or NaN.
- The unused `serializedTilemap` string in `Sandbox::Init` (Sandbox.h:75) and the unused `PhysicsSystem` in Sandbox.h:35 have no effect and are not modelled. The same goes for the unused `m_isPaused`, `m_boxDropped`, `m_pixelsPerMeter` and `m_gridSize`/`tileSize` fields, which are only stored.
- The commented-out mouse-interaction and position-integration code in GravityGame.h is not part of the program.
