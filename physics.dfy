/** The one-tick move rule of a particle, as pure functions of the grid's
    occupancy, the particle's state, the simulation parameters and the random
    draws of that tick. The class method `Sim.Particle.Fall` performs the same
    decisions step by step on the shared grid and is proved to agree with
    `Destination` and `Recolor` here. */
module Physics {
  import opened Grid

  datatype Kind = Sand | Water | MagicDust

  datatype Color = Rgb(r: int, g: int, b: int)

  /** The global physical parameters every `fall` reads: the gravity slider
      value, the wind strength already truncated to an integer (`int(wind_strength)`,
      the wind slider starts at 0 and never goes below it), and the palette of
      the currently selected magic dust. */
  datatype Params = Params(gravity: real, wind: nat, palette: seq<Color>)

  /** The random draws one `fall` call may consume: the wind roll and the sign
      picked for the wind, the rolls of the diagonal-left and diagonal-right
      attempts, and the palette index of a colour change (taken modulo the
      palette's length, as a uniform pick would be). */
  datatype Draws = Draws(windRoll: real, windRight: bool, leftRoll: real, rightRoll: real, paletteIndex: nat)

  const INITIAL_FALL_SPEED: real := 0.5
  const GRAVITY_SCALE: real := 0.1
  const WIND_CHANCE: real := 0.05
  const COLOR_PERIOD: nat := 5

  function SpreadChance(kind: Kind): real
  {
    if kind == Water then 0.2 else 0.05
  }

  /** fall_speed after one accelerating tick. */
  function NextFallSpeed(speed: real, gravity: real): real
  {
    speed + gravity * GRAVITY_SCALE
  }

  /** The vertical step: down one row for positive gravity, otherwise up one row
      (so zero gravity steps upward). */
  function Direction(gravity: real): (d: int)
    ensures d == 1 || d == -1
    ensures d == 1 <==> gravity > 0.0
  {
    if gravity > 0.0 then 1 else -1
  }

  /** The test on `y + fall_speed` after clamping it to the bottom row. The clamp
      makes the upper bound irrelevant: fall_speed only decides whether the
      particle may move at all, by whether `y + fall_speed` is below row 0. */
  predicate RowGuard(y: int, speed: real, rows: nat): (ok: bool)
    ensures ok <==> rows > 0 && y as real + speed >= 0.0
  {
    var target := y as real + speed;
    var clamped := if target >= rows as real then (rows - 1) as real else target;
    0.0 <= clamped < rows as real
  }

  predicate WindAffected(kind: Kind)
  {
    kind == Sand || kind == MagicDust
  }

  /** The column the wind would push the particle to, before any check. */
  function WindTargetColumn(x: int, wind: nat, d: Draws): int
  {
    x + (if d.windRight then 1 else -1) * wind
  }

  /** The particle's column after the wind pass. */
  function WindColumn<T>(g: seq<seq<Option<T>>>, rows: nat, x: int, y: int, kind: Kind, wind: nat, d: Draws): (nx: int)
    requires Rect(g, rows) && InBounds(g, rows, x, y)
    ensures 0 <= nx < |g|
    ensures nx != x ==> g[nx][y].None? && (nx == x + wind || nx == x - wind)
  {
    if WindAffected(kind) && d.windRoll < WIND_CHANCE then
      var nx := WindTargetColumn(x, wind, d);
      if 0 <= nx < |g| && g[nx][y].None? then nx else x
    else
      x
  }

  /** The wind moves a particle exactly when it is sand or magic dust, its roll
      is below 5%, and the cell `wind` columns to the chosen side is in the grid
      and empty. A particle standing on its own cell is never moved by a zero wind. */
  lemma WindMoves<T>(g: seq<seq<Option<T>>>, rows: nat, x: int, y: int, kind: Kind, wind: nat, d: Draws)
    requires Rect(g, rows) && InBounds(g, rows, x, y)
    ensures var nx := WindTargetColumn(x, wind, d);
      WindColumn(g, rows, x, y, kind, wind, d) != x <==>
        WindAffected(kind) && d.windRoll < WIND_CHANCE && 0 <= nx < |g| && g[nx][y].None? && nx != x
    ensures WindColumn(g, rows, x, y, kind, wind, d) != x ==> WindColumn(g, rows, x, y, kind, wind, d) == WindTargetColumn(x, wind, d)
    ensures g[x][y].Some? && wind == 0 ==> WindColumn(g, rows, x, y, kind, wind, d) == x
  {
  }

  /** The vertical resolution, on the grid as it is after the wind pass: where
      the particle at (x, y) ends up when it tries row `newY`. */
  function Resolve<T>(g: seq<seq<Option<T>>>, rows: nat, x: int, y: int, newY: int, kind: Kind, d: Draws): (r: (int, int))
    requires Rect(g, rows) && InBounds(g, rows, x, y) && 0 <= newY < rows
    ensures r == (x, y) || (InBounds(g, rows, r.0, r.1) && g[r.0][r.1].None?)
    ensures r.1 == y || r.1 == newY
    ensures x - 1 <= r.0 <= x + 1
  {
    if g[x][newY].None? then
      (x, newY)
    else if kind == Water then
      if x > 0 && g[x - 1][y].None? then
        (x - 1, y)
      else if x < |g| - 1 && g[x + 1][y].None? then
        (x + 1, y)
      else
        (x, y)
    else if x > 0 && g[x - 1][newY].None? && d.leftRoll < SpreadChance(kind) then
      (x - 1, newY)
    else if x < |g| - 1 && g[x + 1][newY].None? && d.rightRoll < SpreadChance(kind) then
      (x + 1, newY)
    else
      (x, y)
  }

  /** Blocked water flows sideways in its own row, left before right, and never
      moves diagonally. */
  lemma WaterFlow<T>(g: seq<seq<Option<T>>>, rows: nat, x: int, y: int, newY: int, d: Draws)
    requires Rect(g, rows) && InBounds(g, rows, x, y) && 0 <= newY < rows && newY != y
    requires g[x][newY].Some?
    ensures var r := Resolve(g, rows, x, y, newY, Water, d);
      r.1 == y &&
      (r == (x - 1, y) <==> x > 0 && g[x - 1][y].None?) &&
      (r == (x + 1, y) <==> !(x > 0 && g[x - 1][y].None?) && x < |g| - 1 && g[x + 1][y].None?)
  {
  }

  /** Blocked sand and magic dust slide diagonally, left before right, each only
      into an empty cell and only when its roll is below the 5% spread chance;
      they never move purely sideways in this step. */
  lemma GrainSlide<T>(g: seq<seq<Option<T>>>, rows: nat, x: int, y: int, newY: int, kind: Kind, d: Draws)
    requires Rect(g, rows) && InBounds(g, rows, x, y) && 0 <= newY < rows && newY != y
    requires kind != Water && g[x][newY].Some?
    ensures var r := Resolve(g, rows, x, y, newY, kind, d);
      (r.1 == y ==> r.0 == x) &&
      (r == (x - 1, newY) <==> x > 0 && g[x - 1][newY].None? && d.leftRoll < 0.05) &&
      (r == (x + 1, newY) <==>
        !(x > 0 && g[x - 1][newY].None? && d.leftRoll < 0.05) &&
        x < |g| - 1 && g[x + 1][newY].None? && d.rightRoll < 0.05)
  {
  }

  /** An unobstructed particle steps straight one row in the gravity direction. */
  lemma FreeFall<T>(g: seq<seq<Option<T>>>, rows: nat, x: int, y: int, newY: int, kind: Kind, d: Draws)
    requires Rect(g, rows) && InBounds(g, rows, x, y) && 0 <= newY < rows
    requires g[x][newY].None?
    ensures Resolve(g, rows, x, y, newY, kind, d) == (x, newY)
  {
  }

  /** Whether `fall` moves a non-glued particle at all: the guard on fall_speed
      and the bounds of the target row (the column is in bounds by construction). */
  predicate MayMove(y: int, speed: real, rows: nat, gravity: real): (ok: bool)
    ensures ok <==> y as real + speed >= 0.0 && 0 <= y + Direction(gravity) < rows
  {
    RowGuard(y, speed, rows) && 0 <= y + Direction(gravity) < rows
  }

  /** Where a non-glued particle at (x, y) ends up after one `fall`, given the
      grid before the call and fall_speed after its increase. */
  function Destination<T>(g: seq<seq<Option<T>>>, rows: nat, x: int, y: int, kind: Kind, speed: real, p: Params, d: Draws): (r: (int, int))
    requires Rect(g, rows) && InBounds(g, rows, x, y) && g[x][y].Some?
    ensures InBounds(g, rows, r.0, r.1)
    ensures r != (x, y) ==> g[r.0][r.1].None?
    ensures r.1 == y || r.1 == y + Direction(p.gravity)
    ensures !MayMove(y, speed, rows, p.gravity) ==> r == (x, y)
  {
    var newY := y + Direction(p.gravity);
    if !MayMove(y, speed, rows, p.gravity) then
      (x, y)
    else
      var wx := WindColumn(g, rows, x, y, kind, p.wind, d);
      var g1 := if wx == x then g else Moved(g, x, y, wx, y);
      Resolve(g1, rows, wx, y, newY, kind, d)
  }

  /** Water is never blown by the wind and never moves diagonally: it either
      steps one row straight up or down, or moves one column within its row. */
  lemma WaterDestination<T>(g: seq<seq<Option<T>>>, rows: nat, x: int, y: int, speed: real, p: Params, d: Draws)
    requires Rect(g, rows) && InBounds(g, rows, x, y) && g[x][y].Some?
    ensures WindColumn(g, rows, x, y, Water, p.wind, d) == x
    ensures var r := Destination(g, rows, x, y, Water, speed, p, d);
      (r.0 == x || r.1 == y) && x - 1 <= r.0 <= x + 1
  {
  }

  /** Sand and magic dust move sideways within their row only by the wind: a
      destination in the particle's own row is the column the wind chose, and a
      destination in the next row is at most one column from it. */
  lemma GrainDestination<T>(g: seq<seq<Option<T>>>, rows: nat, x: int, y: int, kind: Kind, speed: real, p: Params, d: Draws)
    requires Rect(g, rows) && InBounds(g, rows, x, y) && g[x][y].Some? && kind != Water
    requires MayMove(y, speed, rows, p.gravity)
    ensures var r := Destination(g, rows, x, y, kind, speed, p, d);
      var wx := WindColumn(g, rows, x, y, kind, p.wind, d);
      (r.1 == y ==> r.0 == wx) && wx - 1 <= r.0 <= wx + 1
  {
    var newY := y + Direction(p.gravity);
    var wx := WindColumn(g, rows, x, y, kind, p.wind, d);
    var g1: seq<seq<Option<T>>> := if wx == x then g else Moved(g, x, y, wx, y);
    assert g1[wx][y].Some?;
    if g1[wx][newY].Some? {
      GrainSlide(g1, rows, wx, y, newY, kind, d);
    }
  }

  /** fall_speed after n accelerating ticks. */
  function Accelerated(speed: real, gravity: real, n: nat): real
  {
    if n == 0 then speed else NextFallSpeed(Accelerated(speed, gravity, n - 1), gravity)
  }

  /** n ticks of acceleration add n times `gravity * 0.1` to the fall speed. */
  lemma {:induction false} AcceleratedClosedForm(speed: real, gravity: real, n: nat)
    ensures Accelerated(speed, gravity, n) == speed + (n as real) * gravity * GRAVITY_SCALE
  {
    if n > 0 {
      AcceleratedClosedForm(speed, gravity, n - 1);
      assert (n as real) * gravity * GRAVITY_SCALE == ((n - 1) as real) * gravity * GRAVITY_SCALE + gravity * GRAVITY_SCALE;
    }
  }

  /** m ticks of acceleration followed by n more are m + n ticks. */
  lemma {:induction false} AcceleratedAdd(speed: real, gravity: real, m: nat, n: nat)
    ensures Accelerated(Accelerated(speed, gravity, m), gravity, n) == Accelerated(speed, gravity, m + n)
  {
    if n > 0 {
      AcceleratedAdd(speed, gravity, m, n - 1);
    }
  }

  /** Whether the colour step from counter value `counter` re-picks the colour:
      the incremented counter is a multiple of 5. */
  predicate RepickDue(counter: nat)
  {
    (counter + 1) % COLOR_PERIOD == 0
  }

  /** The magic-dust colour step: the counter goes up by one, and the colour is
      re-picked from the palette exactly when the new counter is a multiple of 5. */
  function Recolor(counter: nat, color: Color, palette: seq<Color>, index: nat): (r: (nat, Color))
    requires |palette| > 0
    ensures r.0 == counter + 1
    ensures r.0 % COLOR_PERIOD == 0 ==> r.1 in palette
    ensures r.0 % COLOR_PERIOD != 0 ==> r.1 == color
  {
    (counter + 1, if RepickDue(counter) then palette[index % |palette|] else color)
  }

  /** A run of colour steps, one per palette index drawn: the final counter and
      colour, and how many of the steps re-picked the colour. */
  function RecolorRun(counter: nat, color: Color, palette: seq<Color>, indices: seq<nat>): (nat, Color, nat)
    requires |palette| > 0
    decreases |indices|
  {
    if |indices| == 0 then (counter, color, 0)
    else
      var step := Recolor(counter, color, palette, indices[0]);
      var rest := RecolorRun(step.0, step.1, palette, indices[1..]);
      (rest.0, rest.1, rest.2 + (if RepickDue(counter) then 1 else 0))
  }

  /** Over n colour steps from counter c the counter reaches c + n and the colour
      is re-picked once per multiple of 5 passed, `(c + n) / 5 - c / 5` times; a
      colour never re-picked is the original one, and a re-picked one is a
      palette colour. So a newly spawned particle (counter 0) changes colour k
      times in its first 5k ticks. */
  lemma {:induction false} RecolorRunCount(counter: nat, color: Color, palette: seq<Color>, indices: seq<nat>)
    requires |palette| > 0
    ensures var r := RecolorRun(counter, color, palette, indices);
      r.0 == counter + |indices| &&
      r.2 == (counter + |indices|) / COLOR_PERIOD - counter / COLOR_PERIOD &&
      (r.2 == 0 ==> r.1 == color) &&
      (r.2 > 0 ==> r.1 in palette)
    decreases |indices|
  {
    if |indices| > 0 {
      var step := Recolor(counter, color, palette, indices[0]);
      RecolorRunCount(step.0, step.1, palette, indices[1..]);
    }
  }

  /** Two runs of colour steps in a row are one run over both index sequences. */
  lemma {:induction false} RecolorRunAppend(counter: nat, color: Color, palette: seq<Color>, i1: seq<nat>, i2: seq<nat>)
    requires |palette| > 0
    ensures var r1 := RecolorRun(counter, color, palette, i1);
      var r2 := RecolorRun(r1.0, r1.1, palette, i2);
      RecolorRun(counter, color, palette, i1 + i2) == (r2.0, r2.1, r1.2 + r2.2)
    decreases |i1|
  {
    if |i1| == 0 {
      assert i1 + i2 == i2;
    } else {
      var step := Recolor(counter, color, palette, i1[0]);
      assert (i1 + i2)[1..] == i1[1..] + i2;
      RecolorRunAppend(step.0, step.1, palette, i1[1..], i2);
    }
  }
}
