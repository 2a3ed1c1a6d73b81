# PixelSand simulation core in Dafny

PixelSand is a falling-sand toy. The window shows a column-major grid
`grid[x][y]` of cells. Each cell is either empty or holds one particle: sand,
water or magic dust. Every frame, the program sweeps the columns
`[0, 4 * (cols // 4))`, each column from the bottom row up, and calls `fall` on
every cell that is occupied when the sweep reaches it. The last `cols % 4`
columns are never swept. A particle that moves into a cell the sweep reaches
later in the same frame has `fall` called on it again, and that call decides
whether it moves again. Such a cell is the row above under non-positive
gravity, or a column to the right while that column is still below
`4 * (cols // 4)`. One `fall` call works as follows.

- Gravity first accelerates the particle's `fall_speed`.
- If the particle may move, sand and magic dust can be blown sideways by the
  wind.
- The particle then steps one row in the gravity direction if that cell is
  empty.
- If that cell is taken, water flows to a free left or right neighbour, and
  sand and magic dust slide diagonally on a small random roll.
- Magic dust re-picks its colour from the current palette on every fifth call.

The columns are split into four bands, one per worker thread. The left and
right mouse buttons spawn particles into empty cells. Changing the cell size
recomputes the grid's dimensions and replaces the grid with an empty one.

The model has four modules.

- `Grid` (grid.dfy): pure operations on a column-major grid
  `seq<seq<Option<T>>>`. Cell assignment (`Set`), the two-assignment move
  (`Moved`), grid creation, and the particle count with its lemmas.
- `Physics` (physics.dfy): the move rule as pure functions of the grid, the
  particle's state, the parameters and the random draws. These are
  `WindColumn`, `Resolve`, `Destination` and `Recolor`, with the lemmas that
  state what they decide.
- `Schedule` (schedule.dfy): the four-way band partition and the sweep order of
  one band.
- `Sim` (sim.dfy): the mutable state.
  - `Particle` is a class whose fields `Fall` updates in place.
  - `World` holds the program's module-level state: `GRID_SIZE`, `cols`,
    `rows` and `grid`. The grid is a field that the methods reassign.
  - `World.Valid()` is the consistency invariant: every occupied cell (x, y)
    holds a particle of `particles` whose own `x`, `y` are (x, y), and every
    particle of `particles` sits in the cell its `x`, `y` name.
  - `Fall`, the spawn and the resize keep that invariant and are proved
    against the pure functions above.
  - The sweep (`VisitCell`, `SweepColumn`, `UpdateParticles`, `SweepBands`) and the tick
    return a ghost `Trace`, the record of the sweep: the cells reached in order,
    and the grid and occupant at each. Their contracts state `Swept`. The cells
    are those of `ScanOrder`, and every step is one `fall` call. An empty cell
    or a glued occupant changes nothing. Any other occupant ends at
    `Destination`, with its fall speed increased once per visit so far, and the
    grid changes by that one move. Each particle's fall speed, colour counter
    and colour end as its visits advanced them. `SweptThen` composes two sweeps
    into one, which is how the tick's four bands become one sweep.

Modelling choices:

- Randomness arrives as explicit inputs. The `Draws` record holds the wind
  roll, the wind sign, the two diagonal rolls and a palette index. The sweep
  takes `draws(x, y)`: the draws of the call made when the sweep reaches cell
  (x, y).
- The globals `gravity_strength`, `int(wind_strength)` and the current
  magic-dust palette are passed as a `Params` value. They change only between
  frames.
- `fall_speed` and gravity are `real`, with no floating-point rounding.
- `kind` and `glued` are `const` fields: the program never reassigns them.
- The ghost field `World.particles` is the set of particles on the grid: those
  spawned since the grid was created, since nothing removes a particle. It is
  the footprint the sweep may modify.

Behaviour of the program that the model keeps:

- `spread_chance` is 0.2 for water (pixelsand.py:160), but only the sand and
  magic-dust diagonal branches read it (pixelsand.py:181, 187). Blocked water
  tries its left and then its right neighbour with no roll
  (pixelsand.py:169-179).
- The step direction is +1 only when gravity is positive, and -1 otherwise, so
  zero gravity moves particles upward (pixelsand.py:145).
- Nothing limits a particle to one `fall` per frame (pixelsand.py:231-235). The
  sweep reaches every cell of its band once (`ScanOrderSorted`), but a particle
  it moved to a later column of the swept columns, or to the row above, is in a
  cell still to come and `fall` is called on it again.
- Spawn cells are `mouse_x // GRID_SIZE` and `mouse_y // GRID_SIZE`
  (pixelsand.py:266, 281). Mouse pixels are never negative, so the model takes
  the cells as `nat`.

## Model

| member | source | states |
|---|---|---|
| `Grid.CreateGrid` | pixelsand.py:200-201 | the new grid has `cols` columns of `rows` cells, every one empty |
| `Grid.CountCreateGrid` | pixelsand.py:200-201 | a newly created grid holds no particle |
| `Grid.CountZero` | pixelsand.py:200-201 | the particle count is 0 exactly when every cell is empty |
| `Grid.ColumnCountZero` | pixelsand.py:200-201 | a column holds no particle exactly when all its cells are empty |
| `Grid.Set` | pixelsand.py:155-156 | assigning one cell changes that cell only |
| `Grid.Moved` | pixelsand.py:155-156 | a move copies the source's content into the destination, clears the source, and leaves every other cell unchanged |
| `Grid.MovedTwice` | pixelsand.py:151-166 | a wind move followed by a vertical move through the emptied intermediate cell equals the single move from start to end |
| `Grid.CountSet` | pixelsand.py:270-283 | one cell assignment changes the count by the particle that left and the one that arrived |
| `Grid.CountMoved` | pixelsand.py:154-191 | a move from an occupied cell into an empty one keeps the particle count |
| `Physics.Direction` | pixelsand.py:145 | the step is one row, down (+1) exactly when gravity is positive and up (-1) otherwise, zero gravity included |
| `Physics.RowGuard` | pixelsand.py:139-144 | after clamping to the bottom row, the guard holds exactly when the grid has rows and `y + fall_speed >= 0` |
| `Physics.MayMove` | pixelsand.py:139-149 | a particle may move exactly when `y + fall_speed >= 0` and the next row in the gravity direction is inside the grid; the clamp to the bottom row means a large fall speed never blocks it |
| `Physics.WindColumn` | pixelsand.py:151-157 | the wind leaves the column unchanged, or moves it exactly `wind` columns to an in-bounds empty cell in the same row |
| `Physics.WindMoves` | pixelsand.py:151-157 | the wind moves the particle exactly when it is sand or magic dust, the roll is below 0.05, and the target is in bounds, empty and different; with wind 0 it never moves |
| `Physics.Resolve` | pixelsand.py:160-191 | the particle stays, or moves at most one column into an empty in-bounds cell of its own row or the target row |
| `Physics.FreeFall` | pixelsand.py:163-166 | an empty gravity-direction cell is always taken |
| `Physics.WaterFlow` | pixelsand.py:169-179 | blocked water stays in its row; it goes left exactly when the left cell is free, and right exactly when the left is not free but the right is |
| `Physics.GrainSlide` | pixelsand.py:180-191 | blocked sand or magic dust goes diagonal-left exactly when that cell is free and its roll is below 0.05, diagonal-right exactly when the left attempt fails and the right is free with a roll below 0.05, and never purely sideways |
| `Physics.Destination` | pixelsand.py:137-191 | the end cell is in bounds; it is the start cell or a cell that was empty (no occupied cell is overwritten); its row is the start row or exactly one row in the gravity direction; the particle does not move at all when the guard or the next row's bounds fail |
| `Physics.WaterDestination` | pixelsand.py:151-179 | the wind leaves water's column unchanged; water never moves diagonally, and it moves at most one column |
| `Physics.GrainDestination` | pixelsand.py:151-191 | sand and magic dust end in their own row only in the column the wind chose, otherwise within one column of it |
| `Physics.Recolor` | pixelsand.py:194-197 | the counter goes up by one; the colour becomes a palette member when the new counter is a multiple of 5, and stays the same otherwise |
| `Physics.AcceleratedClosedForm` | pixelsand.py:138 | n `fall` calls add `n * gravity * 0.1` to the fall speed |
| `Physics.AcceleratedAdd` | pixelsand.py:138 | m accelerating calls followed by n more are m + n of them |
| `Physics.RecolorRunCount` | pixelsand.py:194-197 | over n colour steps from counter c the counter ends at c + n and the colour is re-picked `(c + n) / 5 - c / 5` times; a colour never re-picked is the original one, and a re-picked one is a palette colour |
| `Physics.RecolorRunAppend` | pixelsand.py:194-197 | two runs of colour steps in a row are one run over both index sequences, with the re-pick counts added |
| `Schedule.Covered` | pixelsand.py:307-311 | the bands cover `4 * (cols // 4)` columns, at most `cols`, leaving fewer than 4 columns over |
| `Schedule.BandStart` | pixelsand.py:310 | band 0 starts at column 0 and every later band starts where the previous one ends |
| `Schedule.BandEnd` | pixelsand.py:311 | no band of the four ends past `4 * (cols // 4)`, and the last one ends exactly there |
| `Schedule.BandBounds` | pixelsand.py:309-311 | band 0 starts at 0, band i + 1 starts where band i ends, and the last band ends at `4 * (cols // 4)` |
| `Schedule.BandOrder` | pixelsand.py:309-311 | a later band starts at or after the end of an earlier one |
| `Schedule.BandsPartition` | pixelsand.py:307-311 | a column lies in some band exactly when it is below `4 * (cols // 4)`, and never in two bands |
| `Schedule.ColumnScan` | pixelsand.py:232 | a column is scanned from row `rows - 1` down to row 0 |
| `Schedule.ScanOrder` | pixelsand.py:231-232 | the sweep of the columns [lo, hi) reaches `(hi - lo) * rows` cells, and none when `hi <= lo` |
| `Schedule.ScanOrderCells` | pixelsand.py:230-232 | a band's sweep reaches exactly the cells of its columns |
| `Schedule.ScanOrderSorted` | pixelsand.py:230-232 | the sweep reaches cells in strictly increasing order: left column first, and within a column lower rows first; so each cell is reached once |
| `Schedule.ScanOrderSplit` | pixelsand.py:230-232 | sweeping the columns [lo, mid) and then [mid, hi) reaches the same cells in the same order as sweeping [lo, hi) |
| `Sim.Cols` | pixelsand.py:73 | `cols` is the number of whole cells across the 1200-pixel width |
| `Sim.Rows` | pixelsand.py:303 | `rows` is the number of whole cells in the 600 pixels above the control panel |
| `Sim.PixelToCell` | pixelsand.py:266 | the cell is the one whose pixel span `[c * GRID_SIZE, (c + 1) * GRID_SIZE)` contains the mouse coordinate |
| `Sim.CanSpawn` | pixelsand.py:267-268 | on a rectangular grid, the corrected spawn guard holds exactly when the right button as written would place a particle |
| `Sim.RightButtonAsWritten` | pixelsand.py:280-283 | the right button as written fails with an index error exactly when the row is in range and the column is at or beyond `cols` |
| `Sim.RightButtonGap` | pixelsand.py:282 | with cell size 7, a right click at pixel column 1199 indexes column 171 of a 171-column grid |
| `Sim.RightButtonAgrees` | pixelsand.py:268 | where the as-written right button does not fail, it places a particle exactly when the corrected guard does; the corrected guard implies the cell is in bounds |
| `Sim.StepMeaning` | pixelsand.py:133-191 | in a sweep step, an empty cell or a glued occupant leaves the grid as it is; a moving occupant enters a cell that was empty, in its own row or the next row in the gravity direction |
| `Sim.StepKeeps` | pixelsand.py:133-191 | one sweep step keeps the count, every glued particle, and every particle outside the step's column |
| `Sim.SweptKeeps` | pixelsand.py:230-235 | a sweep over the cells of the columns [lo, hi) keeps the count, leaves every glued particle in its cell, and leaves every particle outside [lo, hi) in its cell |
| `Sim.VisitSwept` | pixelsand.py:233-235 | one `fall` call at a cell, described by its effect on the grid and on its occupant's state, is a one-step sweep |
| `Sim.SweptThen` | pixelsand.py:230-235 | a sweep followed by a sweep from the grid and particle states it left is one sweep over both cell sequences, with the visits of the first counted in the accelerations and colour steps of the second |
| `Sim.DestinationInSteps` | pixelsand.py:151-191 | the wind pass followed by the vertical resolution is `Destination`, and the two moves leave the grid as one move would |
| `Sim.Particle.constructor` | pixelsand.py:124-131 | a new particle has the given cell, kind, colour and glue flag, fall speed 0.5 and counter 0 |
| `Sim.Particle.MoveTo` | pixelsand.py:155-157 | moving into an empty cell keeps the invariant, sets the coordinates, and changes the grid by exactly that move |
| `Sim.Particle.WindStep` | pixelsand.py:150-157 | the column becomes `WindColumn`, the row is unchanged, and the grid changes by that move only |
| `Sim.Particle.GravityStep` | pixelsand.py:159-191 | the cell becomes `Resolve`'s, and the grid changes by that move only |
| `Sim.Particle.Step` | pixelsand.py:149-191 | once the guards pass, the wind pass and then the vertical resolution take the particle to `Destination` by one move into a cell that was empty |
| `Sim.Particle.Move` | pixelsand.py:138-191 | the fall speed grows by gravity times 0.1; the particle ends at `Destination`; the grid changes by that one move into a cell that was empty; the invariant and the count are kept |
| `Sim.Particle.Fall` | pixelsand.py:133-197 | a glued particle and the grid are unchanged; otherwise fall speed grows by gravity times 0.1, the particle ends at `Destination`, the grid differs from before only at its old and new cells, and the count and the invariant are kept; magic dust advances by `Recolor`, other kinds keep counter and colour |
| `Sim.Particle.AccelerateAndMove` | pixelsand.py:137-197 | for a particle that is not glued: fall speed grows by gravity times 0.1, the particle ends at `Destination` by one move into a cell that was empty, and magic dust advances by `Recolor` |
| `Sim.Particle.AdvanceColor` | pixelsand.py:194-197 | the counter and colour become those `Recolor` gives: the counter goes up by one, and on a multiple of 5 the colour is re-picked from the palette |
| `Sim.World.ParticleCount` | pixelsand.py:154-191 | under the invariant, the number of particles equals the number of occupied cells |
| `Sim.World.Valid` | pixelsand.py:154-191 | the grid and the particles agree: every occupied cell holds a particle whose coordinates are that cell, and every particle sits in the cell its coordinates name |
| `Sim.World.constructor` | pixelsand.py:70-73 | the initial cell size 5 gives a valid, empty 240 x 120 grid |
| `Sim.World.SetGridSize` | pixelsand.py:298-304 | an unchanged size changes nothing; a new size recomputes `cols` and `rows` and leaves an empty grid of those dimensions |
| `Sim.World.Spawn` | pixelsand.py:266-283 | a particle is placed exactly when the cell is in bounds and empty, with coordinates set to the cell, fall speed 0.5 and counter 0; nothing else changes, and the count grows by one |
| `Sim.World.LeftButton` | pixelsand.py:265-278 | the left button places a particle exactly when the cell under the mouse is in the grid and empty: sand, or magic dust in that mode, with the given colour and glue flag, at that cell, with fall speed 0.5 and counter 0; the rest of the grid and the particle set are otherwise unchanged, and the count grows by one |
| `Sim.World.RightButton` | pixelsand.py:280-283 | the right button, with the column check added, places unglued water of the water colour, with fall speed 0.5 and counter 0, exactly when the cell under the mouse is in the grid and empty; the rest of the grid is unchanged and the count grows by one |
| `Sim.World.VisitCell` | pixelsand.py:233-235 | the visit is a one-step sweep: an empty cell or a glued occupant changes nothing; otherwise the occupant's speed is accelerated, it ends at `Destination` by one move, magic dust takes one colour step, and no other particle changes; the invariant is kept |
| `Sim.World.SweepColumn` | pixelsand.py:232-235 | sweeping column x is the sweep over `ColumnScan(x)`, from the bottom row up, one `fall` call per occupied cell as the sweep reaches it; the invariant is kept |
| `Sim.World.UpdateParticles` | pixelsand.py:230-235 | sweeping a band is the sweep over `ScanOrder(x_start, x_end)`, one `fall` call per cell occupied when reached; the invariant and the count are kept, and every glued particle and every particle outside the band keeps its coordinates and its cell |
| `Sim.World.SweepBands` | pixelsand.py:307-318 | the four bands `[i * (cols // 4), (i + 1) * (cols // 4))`, swept for i from 0 to 3, are one sweep over `ScanOrder(0, 4 * (cols // 4))`; the invariant is kept |
| `Sim.World.Tick` | pixelsand.py:306-318 | the frame is one sweep over `ScanOrder(0, 4 * (cols // 4))`, the four bands one after the other; the invariant and the count are kept, and every glued particle and every particle in the columns from `4 * (cols // 4)` on keeps its coordinates and its cell |

## Left out

- Threads and joins (pixelsand.py:308-318): the four bands are swept one after
  the other. Races between bands at a boundary column are not modelled.
- Pygame is not part of this model: the window, the event loop, drawing,
  fonts, the mouse, button hit-testing and frame pacing. Mouse positions and
  button states become method parameters.
- The `Slider` widget (pixelsand.py:95-120) and its float interpolation are not
  modelled. The cell size it yields reaches `SetGridSize` as a positive `nat`,
  and gravity and wind reach `Fall` as `Params`.
- Colour choice is not modelled: the hue counter, the HSV conversion and the
  colour pickers. The spawn colour is a parameter. The palette contents matter
  only as a non-empty sequence.
- Randomness: the random module is not modelled. Each call's draws are inputs,
  so the model does not capture how many draws a call consumes.
- Floating point: `fall_speed`, gravity and the rolls are `real`, without
  rounding.
- Physics.Recolor: picks palette entry `paletteIndex % |palette|`, which stands
  in for a uniform random choice. Uniformity itself is not modelled.
- Python's negative list indices are not modelled: every index the program
  uses is guarded or comes from non-negative mouse pixels.
- Sim.World.RightButton: it checks `grid_x < cols`, which the program omits.
  The as-written path is `Sim.RightButtonAsWritten` (see Findings).
- Rendering (pixelsand.py:320-325) only reads the grid and is not modelled.

## Findings

| source | as written | input that shows it | evidently intended | confidence | as-written member | corrected member |
|---|---|---|---|---|---|---|
| pixelsand.py:280-283 | the right button checks only `0 <= grid_y < rows` before indexing `grid[grid_x][grid_y]` | cell size 7 (171 columns) and a right click at mouse x 1199, which gives `grid_x` 171 and an index error | the same `grid_x < cols` check as the left button (pixelsand.py:268) | high, not executed | `Sim.RightButtonAsWritten`, `Sim.RightButtonGap` | `Sim.World.RightButton` |
