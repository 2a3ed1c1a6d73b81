/** The simulation state and the operations that change it in place: the
    particles, whose fields `fall` updates, and the world, which holds the
    module-level state of the program (the grid, its dimensions and the cell
    size) and runs the sweep, the spawn rule and the resize. */
module Sim {
  import opened Grid
  import opened Physics
  import opened Schedule

  const WIDTH: nat := 1200
  const HEIGHT: nat := 750
  const UI_HEIGHT: nat := 150
  const INITIAL_GRID_SIZE: nat := 5
  const WATER_COLOR: Color := Rgb(64, 164, 223)

  /** Number of grid columns for a cell size: `WIDTH // GRID_SIZE`, the number of
      whole cells across the window. */
  function Cols(gridSize: nat): (c: nat)
    requires gridSize > 0
    ensures c * gridSize <= WIDTH < (c + 1) * gridSize
  {
    WIDTH / gridSize
  }

  /** Number of grid rows for a cell size: `(HEIGHT - UI_HEIGHT) // GRID_SIZE`,
      the number of whole cells above the control panel. */
  function Rows(gridSize: nat): (r: nat)
    requires gridSize > 0
    ensures r * gridSize <= HEIGHT - UI_HEIGHT < (r + 1) * gridSize
  {
    (HEIGHT - UI_HEIGHT) / gridSize
  }

  /** The cell a mouse coordinate falls in. */
  function PixelToCell(pixel: nat, gridSize: nat): (c: nat)
    requires gridSize > 0
    ensures c * gridSize <= pixel < (c + 1) * gridSize
  {
    pixel / gridSize
  }

  /** The spawn guard: the cell is inside the grid and empty. */
  predicate CanSpawn(g: seq<seq<Option<Particle>>>, rows: nat, gx: nat, gy: nat): (ok: bool)
    ensures Rect(g, rows) ==> (ok <==> RightButtonAsWritten(g, rows, gx, gy) == Placed)
  {
    gx < |g| && gy < rows && gy < |g[gx]| && g[gx][gy].None?
  }

  datatype SpawnOutcome = Placed | Skipped | IndexError

  /** The right-button spawn as the program has it: only the row is checked
      before the grid is indexed, so a column at or beyond `cols` raises an
      index error instead of being skipped. */
  function RightButtonAsWritten(g: seq<seq<Option<Particle>>>, rows: nat, gx: nat, gy: nat): (r: SpawnOutcome)
    requires Rect(g, rows)
    ensures r == IndexError <==> gy < rows && gx >= |g|
  {
    if !(gy < rows) then Skipped
    else if gx >= |g| then IndexError
    else if g[gx][gy].None? then Placed
    else Skipped
  }

  /** With cell size 7 the grid has 171 columns covering pixels 0..1196, so a
      right click in pixel column 1199, still inside the 1200-pixel window,
      indexes column 171 of a 171-column grid. */
  lemma RightButtonGap()
    ensures var gs := 7;
      2 <= gs <= 20 && 1199 < WIDTH && Cols(gs) == 171 && PixelToCell(1199, gs) == Cols(gs) &&
      RightButtonAsWritten(CreateGrid<Particle>(Cols(gs), Rows(gs)), Rows(gs), PixelToCell(1199, gs), PixelToCell(0, gs)) == IndexError
  {
  }

  /** Where the as-written right button does not fail, it decides exactly as the
      corrected guard `CanSpawn` does. */
  lemma RightButtonAgrees(g: seq<seq<Option<Particle>>>, rows: nat, gx: nat, gy: nat)
    requires Rect(g, rows)
    ensures RightButtonAsWritten(g, rows, gx, gy) != IndexError ==>
      (RightButtonAsWritten(g, rows, gx, gy) == Placed <==> CanSpawn(g, rows, gx, gy))
    ensures CanSpawn(g, rows, gx, gy) ==> gx < |g| && gy < rows
  {
  }

  /** Every glued particle of g0 is still in the same cell in g1. */
  ghost predicate GluedKept(g0: seq<seq<Option<Particle>>>, g1: seq<seq<Option<Particle>>>)
  {
    |g1| == |g0| &&
    forall i, j :: 0 <= i < |g0| && 0 <= j < |g0[i]| && g0[i][j].Some? && g0[i][j].value.glued ==>
      j < |g1[i]| && g1[i][j] == g0[i][j]
  }

  /** Every particle of g0 outside the columns [lo, hi) is still in the same cell in g1. */
  ghost predicate KeptOutside(g0: seq<seq<Option<Particle>>>, g1: seq<seq<Option<Particle>>>, lo: int, hi: int)
  {
    |g1| == |g0| &&
    forall i, j :: 0 <= i < |g0| && 0 <= j < |g0[i]| && (i < lo || hi <= i) && g0[i][j].Some? ==>
      j < |g1[i]| && g1[i][j] == g0[i][j]
  }

  /** The per-particle state that the sweep advances: fall speed, colour counter
      and colour. */
  datatype ParticleState = ParticleState(fallSpeed: real, counter: nat, color: Color)

  /** The state of every particle of a set. */
  ghost function StatesOf(ps: set<Particle>): map<Particle, ParticleState>
    reads ps
  {
    map p | p in ps :: ParticleState(p.fallSpeed, p.colorChangeCounter, p.color)
  }

  /** The record of a sweep. cells[k] is the k-th cell reached and grids[k] the
      grid just before it is visited (grids ends with the final grid);
      occupants[k] is that cell's content at that moment, dests[k] the cell its
      occupant ends in, and speeds[k] the occupant's fall speed after the
      increase. start holds every particle's state when the sweep began. */
  datatype Trace = Trace(cells: seq<(int, int)>, grids: seq<seq<seq<Option<Particle>>>>,
                         occupants: seq<Option<Particle>>, dests: seq<(int, int)>, speeds: seq<real>,
                         start: map<Particle, ParticleState>)

  /** How many entries of occ hold p: how often the sweep reached p. */
  ghost function Visits(occ: seq<Option<Particle>>, p: Particle): nat
  {
    if |occ| == 0 then 0 else Visits(occ[..|occ| - 1], p) + (if occ[|occ| - 1] == Some(p) then 1 else 0)
  }

  /** The palette indices drawn at the visits of p, in order. */
  ghost function VisitIndices(occ: seq<Option<Particle>>, cells: seq<(int, int)>, p: Particle, draws: (int, int) -> Draws): seq<nat>
    requires |occ| == |cells|
  {
    if |occ| == 0 then []
    else
      var last := cells[|cells| - 1];
      VisitIndices(occ[..|occ| - 1], cells[..|cells| - 1], p, draws) +
      (if occ[|occ| - 1] == Some(p) then [draws(last.0, last.1).paletteIndex] else [])
  }

  lemma {:induction false} VisitsAppend(a: seq<Option<Particle>>, b: seq<Option<Particle>>, p: Particle)
    ensures Visits(a + b, p) == Visits(a, p) + Visits(b, p)
    decreases |b|
  {
    if |b| == 0 {
      assert a + b == a;
    } else {
      assert (a + b)[..|a + b| - 1] == a + b[..|b| - 1];
      assert (a + b)[|a + b| - 1] == b[|b| - 1];
      VisitsAppend(a, b[..|b| - 1], p);
    }
  }

  lemma {:induction false} VisitIndicesAppend(a: seq<Option<Particle>>, ca: seq<(int, int)>, b: seq<Option<Particle>>, cb: seq<(int, int)>,
                                              p: Particle, draws: (int, int) -> Draws)
    requires |a| == |ca| && |b| == |cb|
    ensures VisitIndices(a + b, ca + cb, p, draws) == VisitIndices(a, ca, p, draws) + VisitIndices(b, cb, p, draws)
    decreases |b|
  {
    if |b| == 0 {
      assert a + b == a && ca + cb == ca;
    } else {
      assert (a + b)[..|a + b| - 1] == a + b[..|b| - 1];
      assert (ca + cb)[..|ca + cb| - 1] == ca + cb[..|cb| - 1];
      assert (a + b)[|a + b| - 1] == b[|b| - 1] && (ca + cb)[|ca + cb| - 1] == cb[|cb| - 1];
      VisitIndicesAppend(a, ca, b[..|b| - 1], cb[..|cb| - 1], p, draws);
      assert VisitIndices(a, ca, p, draws) + VisitIndices(b[..|b| - 1], cb[..|cb| - 1], p, draws) +
               (if b[|b| - 1] == Some(p) then [draws(cb[|cb| - 1].0, cb[|cb| - 1].1).paletteIndex] else []) ==
             VisitIndices(a, ca, p, draws) + (VisitIndices(b[..|b| - 1], cb[..|cb| - 1], p, draws) +
               (if b[|b| - 1] == Some(p) then [draws(cb[|cb| - 1].0, cb[|cb| - 1].1).paletteIndex] else []));
    }
  }

  /** One call of `fall` at cell c of grid g0, leading to grid g1, for an
      occupant falling at `speed`: an empty cell or a glued occupant stays and
      the grid is unchanged; any other occupant ends at `Destination`, and the
      grid changes by that one move. */
  ghost predicate Moves(g0: seq<seq<Option<Particle>>>, g1: seq<seq<Option<Particle>>>, c: (int, int),
                        o: Option<Particle>, t: (int, int), speed: real,
                        rows: nat, p: Params, draws: (int, int) -> Draws)
  {
    Rect(g0, rows) && InBounds(g0, rows, c.0, c.1) && InBounds(g0, rows, t.0, t.1) && o == g0[c.0][c.1] &&
    (o.None? || o.value.glued ==> t == c) &&
    (o.Some? && !o.value.glued ==> t == Destination(g0, rows, c.0, c.1, o.value.kind, speed, p, draws(c.0, c.1))) &&
    g1 == (if t == c then g0 else Moved(g0, c.0, c.1, t.0, t.1))
  }

  /** The speed a moving occupant falls at: its speed when the sweep began
      (`start`), increased once for each of its visits in the earlier steps
      (whose occupants `earlier` holds) and once more for this one. */
  ghost predicate Accelerates(o: Option<Particle>, speed: real, earlier: seq<Option<Particle>>,
                              start: map<Particle, ParticleState>, gravity: real)
  {
    o.Some? && !o.value.glued ==>
      o.value in start && speed == Accelerated(start[o.value].fallSpeed, gravity, Visits(earlier, o.value) + 1)
  }

  /** The trace records a step k: a cell, the grids before and after it, an
      occupant, a destination and a speed. */
  ghost predicate HasStep(tr: Trace, k: int)
  {
    0 <= k < |tr.cells| && k + 1 < |tr.grids| && k < |tr.occupants| && k < |tr.dests| && k < |tr.speeds|
  }

  /** Step k of a sweep is one call of `fall`. */
  ghost predicate StepOk(tr: Trace, k: int, rows: nat, p: Params, draws: (int, int) -> Draws)
  {
    HasStep(tr, k) &&
    Moves(tr.grids[k], tr.grids[k + 1], tr.cells[k], tr.occupants[k], tr.dests[k], tr.speeds[k], rows, p, draws) &&
    Accelerates(tr.occupants[k], tr.speeds[k], tr.occupants[..k], tr.start, p.gravity)
  }

  /** A step keeps its speed when earlier steps with their own visits are put
      in front of it, provided the starting speeds are rolled back by those
      visits. */
  lemma AcceleratesShift(o: Option<Particle>, speed: real, earlier: seq<Option<Particle>>, s1: map<Particle, ParticleState>,
                         prefix: seq<Option<Particle>>, s0: map<Particle, ParticleState>, gravity: real)
    requires Accelerates(o, speed, earlier, s1, gravity)
    requires s1.Keys == s0.Keys
    requires o.Some? && !o.value.glued ==>
      s1[o.value].fallSpeed == Accelerated(s0[o.value].fallSpeed, gravity, Visits(prefix, o.value))
    ensures Accelerates(o, speed, prefix + earlier, s0, gravity)
  {
    if o.Some? && !o.value.glued {
      VisitsAppend(prefix, earlier, o.value);
      AcceleratedAdd(s0[o.value].fallSpeed, gravity, Visits(prefix, o.value), Visits(earlier, o.value) + 1);
    }
  }

  ghost predicate TraceOk(tr: Trace, rows: nat, p: Params, draws: (int, int) -> Draws)
  {
    |tr.grids| == |tr.cells| + 1 && |tr.occupants| == |tr.cells| && |tr.dests| == |tr.cells| && |tr.speeds| == |tr.cells| &&
    forall k :: 0 <= k < |tr.cells| ==> StepOk(tr, k, rows, p, draws)
  }

  /** A particle's state after the sweep: unchanged if glued; otherwise its fall
      speed accelerated once per visit and, for magic dust, one colour step per
      visit with the palette index drawn there. */
  ghost function Advanced(tr: Trace, q: Particle, p: Params, draws: (int, int) -> Draws): ParticleState
    requires q in tr.start && |tr.occupants| == |tr.cells| && |p.palette| > 0
  {
    var s := tr.start[q];
    if q.glued then s
    else
      var speed := Accelerated(s.fallSpeed, p.gravity, Visits(tr.occupants, q));
      if q.kind == MagicDust then
        var r := RecolorRun(s.counter, s.color, p.palette, VisitIndices(tr.occupants, tr.cells, q, draws));
        ParticleState(speed, r.0, r.1)
      else ParticleState(speed, s.counter, s.color)
  }

  /** tr records a sweep that turns grid g0 and particle states s0 into grid g1
      and particle states s1, one `fall` call per cell reached. */
  ghost predicate Swept(tr: Trace, g0: seq<seq<Option<Particle>>>, s0: map<Particle, ParticleState>,
                        g1: seq<seq<Option<Particle>>>, s1: map<Particle, ParticleState>,
                        rows: nat, p: Params, draws: (int, int) -> Draws)
  {
    TraceOk(tr, rows, p, draws) && |p.palette| > 0 && SweptEnds(tr, g0, s0, g1, s1, p, draws)
  }

  /** The two ends of a sweep: it starts from g0 and s0, ends with grid g1, and
      ends with every particle's state advanced by its visits. */
  ghost predicate SweptEnds(tr: Trace, g0: seq<seq<Option<Particle>>>, s0: map<Particle, ParticleState>,
                            g1: seq<seq<Option<Particle>>>, s1: map<Particle, ParticleState>,
                            p: Params, draws: (int, int) -> Draws)
    requires |tr.occupants| == |tr.cells| && |tr.grids| > 0 && |p.palette| > 0
  {
    tr.grids[0] == g0 && tr.grids[|tr.grids| - 1] == g1 && tr.start == s0 &&
    s1.Keys == s0.Keys && forall q {:trigger Advanced(tr, q, p, draws)} :: q in s0 ==> s1[q] == Advanced(tr, q, p, draws)
  }

  /** The sweep that has not reached any cell yet. */
  ghost function Unvisited(g: seq<seq<Option<Particle>>>, s: map<Particle, ParticleState>): Trace
  {
    Trace([], [g], [], [], [], s)
  }

  /** Sweep a followed by sweep b. */
  ghost function Then(a: Trace, b: Trace): Trace
    requires |b.grids| > 0
  {
    Trace(a.cells + b.cells, a.grids + b.grids[1..], a.occupants + b.occupants, a.dests + b.dests, a.speeds + b.speeds, a.start)
  }

  lemma UnvisitedSwept(g: seq<seq<Option<Particle>>>, s: map<Particle, ParticleState>, rows: nat, p: Params, draws: (int, int) -> Draws)
    requires |p.palette| > 0
    ensures Swept(Unvisited(g, s), g, s, g, s, rows, p, draws)
  {
    forall q | q in s
      ensures s[q] == Advanced(Unvisited(g, s), q, p, draws)
    {
      assert VisitIndices([], [], q, draws) == [];
    }
  }

  /** Step k of the combined sweep, for k within a, is step k of a. */
  lemma ThenStepFirst(a: Trace, b: Trace, k: int, rows: nat, p: Params, draws: (int, int) -> Draws)
    requires TraceOk(a, rows, p, draws) && |b.grids| > 0
    requires 0 <= k < |a.cells|
    ensures StepOk(Then(a, b), k, rows, p, draws)
  {
    var t := Then(a, b);
    assert StepOk(a, k, rows, p, draws);
    assert t.cells[k] == a.cells[k] && t.dests[k] == a.dests[k] && t.speeds[k] == a.speeds[k];
    assert t.occupants[k] == a.occupants[k] && t.occupants[..k] == a.occupants[..k];
    assert t.grids[k] == a.grids[k] && t.grids[k + 1] == a.grids[k + 1];
  }

  /** Entry n + j of sweep a followed by sweep b, n the length of a, is entry j
      of b, and the occupants before it are those of a and then the first j of b. */
  lemma ThenSecondAt(a: Trace, b: Trace, j: int)
    requires |a.grids| == |a.cells| + 1 && |a.occupants| == |a.cells| && |a.dests| == |a.cells| && |a.speeds| == |a.cells|
    requires 0 <= j < |b.cells| && j + 1 < |b.grids| && j < |b.occupants| && j < |b.dests| && j < |b.speeds|
    requires a.grids[|a.grids| - 1] == b.grids[0]
    ensures var t, k := Then(a, b), |a.cells| + j;
      t.cells[k] == b.cells[j] && t.dests[k] == b.dests[j] && t.speeds[k] == b.speeds[j] &&
      t.occupants[k] == b.occupants[j] && t.occupants[..k] == a.occupants + b.occupants[..j] &&
      t.grids[k] == b.grids[j] && t.grids[k + 1] == b.grids[j + 1]
  {
    var t, k := Then(a, b), |a.cells| + j;
    assert t.occupants[..k] == a.occupants + b.occupants[..j];
  }

  /** Step n + j of the combined sweep, n the length of a, is step j of b with
      the visits of a added to the acceleration count. */
  lemma ThenStepSecond(a: Trace, b: Trace, j: int, rows: nat, p: Params, draws: (int, int) -> Draws)
    requires |a.grids| == |a.cells| + 1 && |a.occupants| == |a.cells| && |a.dests| == |a.cells| && |a.speeds| == |a.cells|
    requires StepOk(b, j, rows, p, draws) && b.start.Keys == a.start.Keys
    requires a.grids[|a.grids| - 1] == b.grids[0]
    requires var o := b.occupants[j]; o.Some? && !o.value.glued ==>
      b.start[o.value].fallSpeed == Accelerated(a.start[o.value].fallSpeed, p.gravity, Visits(a.occupants, o.value))
    ensures StepOk(Then(a, b), |a.cells| + j, rows, p, draws)
  {
    ThenSecondAt(a, b, j);
    AcceleratesShift(b.occupants[j], b.speeds[j], b.occupants[..j], b.start, a.occupants, a.start, p.gravity);
  }

  /** A particle's state after sweep a and then sweep b is its state after the
      combined sweep. */
  lemma ThenAdvanced(a: Trace, b: Trace, q: Particle, s1: map<Particle, ParticleState>, p: Params, draws: (int, int) -> Draws)
    requires |a.occupants| == |a.cells| && |b.occupants| == |b.cells| && |b.grids| > 0 && |p.palette| > 0
    requires q in a.start && b.start == s1 && s1.Keys == a.start.Keys && s1[q] == Advanced(a, q, p, draws)
    ensures Advanced(b, q, p, draws) == Advanced(Then(a, b), q, p, draws)
  {
    if !q.glued {
      var s0 := a.start[q];
      VisitsAppend(a.occupants, b.occupants, q);
      AcceleratedAdd(s0.fallSpeed, p.gravity, Visits(a.occupants, q), Visits(b.occupants, q));
      VisitIndicesAppend(a.occupants, a.cells, b.occupants, b.cells, q, draws);
      RecolorRunAppend(s0.counter, s0.color, p.palette,
        VisitIndices(a.occupants, a.cells, q, draws), VisitIndices(b.occupants, b.cells, q, draws));
    }
  }

  /** Step k of sweep a followed by sweep b, when b starts from the grid and
      the particle states a ends with. */
  lemma ThenStep(a: Trace, b: Trace, k: int, rows: nat, p: Params, draws: (int, int) -> Draws)
    requires TraceOk(a, rows, p, draws) && TraceOk(b, rows, p, draws) && |p.palette| > 0
    requires a.grids[|a.grids| - 1] == b.grids[0] && b.start.Keys == a.start.Keys
    requires forall q {:trigger Advanced(a, q, p, draws)} :: q in a.start ==> b.start[q] == Advanced(a, q, p, draws)
    requires 0 <= k < |a.cells| + |b.cells|
    ensures StepOk(Then(a, b), k, rows, p, draws)
  {
    if k < |a.cells| {
      ThenStepFirst(a, b, k, rows, p, draws);
    } else {
      var j := k - |a.cells|;
      assert StepOk(b, j, rows, p, draws);
      var o := b.occupants[j];
      if o.Some? && !o.value.glued {
        assert b.start[o.value] == Advanced(a, o.value, p, draws);
      }
      ThenStepSecond(a, b, j, rows, p, draws);
    }
  }

  /** Every step of sweep a followed by sweep b is one call of `fall`. */
  lemma ThenTraceOk(a: Trace, b: Trace, rows: nat, p: Params, draws: (int, int) -> Draws)
    requires TraceOk(a, rows, p, draws) && TraceOk(b, rows, p, draws) && |p.palette| > 0
    requires a.grids[|a.grids| - 1] == b.grids[0] && b.start.Keys == a.start.Keys
    requires forall q {:trigger Advanced(a, q, p, draws)} :: q in a.start ==> b.start[q] == Advanced(a, q, p, draws)
    ensures TraceOk(Then(a, b), rows, p, draws)
  {
    forall k | 0 <= k < |a.cells| + |b.cells|
      ensures StepOk(Then(a, b), k, rows, p, draws)
    {
      ThenStep(a, b, k, rows, p, draws);
    }
  }

  /** Two sweeps in a row are one sweep over both sequences of cells. */
  lemma SweptThen(a: Trace, b: Trace, g0: seq<seq<Option<Particle>>>, s0: map<Particle, ParticleState>,
                  g1: seq<seq<Option<Particle>>>, s1: map<Particle, ParticleState>,
                  g2: seq<seq<Option<Particle>>>, s2: map<Particle, ParticleState>,
                  rows: nat, p: Params, draws: (int, int) -> Draws)
    requires Swept(a, g0, s0, g1, s1, rows, p, draws) && Swept(b, g1, s1, g2, s2, rows, p, draws)
    ensures Swept(Then(a, b), g0, s0, g2, s2, rows, p, draws)
    ensures Then(a, b).cells == a.cells + b.cells
  {
    ThenTraceOk(a, b, rows, p, draws);
    forall q | q in s0
      ensures s2[q] == Advanced(Then(a, b), q, p, draws)
    {
      assert s1[q] == Advanced(a, q, p, draws) && s2[q] == Advanced(b, q, p, draws);
      ThenAdvanced(a, b, q, s1, p, draws);
    }
  }

  /** One `fall` call at cell (x, y), given by its effect on the grid and on the
      occupant's state, is a one-step sweep. */
  lemma VisitSwept(g0: seq<seq<Option<Particle>>>, g1: seq<seq<Option<Particle>>>,
                   s0: map<Particle, ParticleState>, s1: map<Particle, ParticleState>,
                   x: int, y: int, o: Option<Particle>, t: (int, int), speed: real,
                   rows: nat, p: Params, draws: (int, int) -> Draws)
    requires Rect(g0, rows) && InBounds(g0, rows, x, y) && o == g0[x][y] && |p.palette| > 0
    requires o.None? ==> g1 == g0 && s1 == s0 && t == (x, y)
    requires o.Some? ==> o.value in s0 && o.value in s1 && s1 == s0[o.value := s1[o.value]]
    requires o.Some? && o.value.glued ==> g1 == g0 && s1 == s0 && t == (x, y)
    requires o.Some? && !o.value.glued ==>
      var q, st := o.value, s0[o.value];
      speed == NextFallSpeed(st.fallSpeed, p.gravity) && s1[q].fallSpeed == speed &&
      t == Destination(g0, rows, x, y, q.kind, speed, p, draws(x, y)) &&
      g1 == (if t == (x, y) then g0 else Moved(g0, x, y, t.0, t.1)) &&
      (q.kind == MagicDust ==> (s1[q].counter, s1[q].color) == Recolor(st.counter, st.color, p.palette, draws(x, y).paletteIndex)) &&
      (q.kind != MagicDust ==> s1[q].counter == st.counter && s1[q].color == st.color)
    ensures Swept(Trace([(x, y)], [g0, g1], [o], [t], [speed], s0), g0, s0, g1, s1, rows, p, draws)
  {
    var tr := Trace([(x, y)], [g0, g1], [o], [t], [speed], s0);
    assert tr.occupants[..0] == [] && tr.cells[..0] == [];
    assert StepOk(tr, 0, rows, p, draws);
    forall q | q in s0
      ensures s1[q] == Advanced(tr, q, p, draws)
    {
      assert Visits(tr.occupants, q) == (if o.Some? && o.value == q then 1 else 0);
      assert VisitIndices(tr.occupants, tr.cells, q, draws) == (if o.Some? && o.value == q then [draws(x, y).paletteIndex] else []);
      if o.Some? && o.value == q && !q.glued {
        var st := s0[q];
        assert Accelerated(st.fallSpeed, p.gravity, 1) == speed;
        if q.kind == MagicDust {
          var idx := [draws(x, y).paletteIndex];
          assert idx[1..] == [];
          var r := Recolor(st.counter, st.color, p.palette, idx[0]);
          assert RecolorRun(st.counter, st.color, p.palette, idx).0 == r.0;
          assert RecolorRun(st.counter, st.color, p.palette, idx).1 == r.1;
        }
      } else {
        assert s1[q] == s0[q];
      }
    }
  }

  /** What one step does to the grid: an empty cell or a glued particle leaves
      it as it is; otherwise the occupant stays, or moves into a cell that was
      empty, in its own row or the next row in the gravity direction. */
  lemma StepMeaning(tr: Trace, k: int, rows: nat, p: Params, draws: (int, int) -> Draws)
    requires StepOk(tr, k, rows, p, draws)
    ensures var c, t := tr.cells[k], tr.dests[k];
      (tr.occupants[k].None? || tr.occupants[k].value.glued ==> tr.grids[k + 1] == tr.grids[k]) &&
      (t != c ==> tr.grids[k][t.0][t.1].None? && (t.1 == c.1 || t.1 == c.1 + Direction(p.gravity)))
  {
  }

  /** A step changes nothing, or moves the non-glued occupant of its cell into
      an empty cell: the count stays, glued particles stay, and so does every
      particle outside the step's column. */
  lemma StepKeeps(tr: Trace, k: int, rows: nat, p: Params, draws: (int, int) -> Draws)
    requires StepOk(tr, k, rows, p, draws)
    ensures var g0, g1, c := tr.grids[k], tr.grids[k + 1], tr.cells[k];
      Count(g1) == Count(g0) && GluedKept(g0, g1) && KeptOutside(g0, g1, c.0, c.0 + 1)
  {
    var g0, c, t := tr.grids[k], tr.cells[k], tr.dests[k];
    if t != c {
      CountMoved(g0, c.0, c.1, t.0, t.1);
    }
  }

  /** The first n steps of a sweep whose cells lie in the columns [lo, hi) keep
      the count, the glued particles and every particle outside [lo, hi). */
  lemma {:induction false} TraceKeeps(tr: Trace, n: int, rows: nat, p: Params, draws: (int, int) -> Draws, lo: int, hi: int)
    requires TraceOk(tr, rows, p, draws) && 0 <= n <= |tr.cells|
    requires forall k :: 0 <= k < |tr.cells| ==> lo <= tr.cells[k].0 < hi
    ensures Count(tr.grids[n]) == Count(tr.grids[0])
    ensures GluedKept(tr.grids[0], tr.grids[n]) && KeptOutside(tr.grids[0], tr.grids[n], lo, hi)
  {
    if n > 0 {
      TraceKeeps(tr, n - 1, rows, p, draws, lo, hi);
      assert StepOk(tr, n - 1, rows, p, draws);
      StepKeeps(tr, n - 1, rows, p, draws);
      GluedKeptTrans(tr.grids[0], tr.grids[n - 1], tr.grids[n]);
      KeptOutsideTrans(tr.grids[0], tr.grids[n - 1], tr.grids[n], lo, hi, tr.cells[n - 1].0);
    }
  }

  /** A sweep over the cells of the columns [lo, hi) keeps the particle count,
      leaves every glued particle in its cell, and leaves every particle outside
      [lo, hi) in its cell. */
  lemma SweptKeeps(tr: Trace, g0: seq<seq<Option<Particle>>>, s0: map<Particle, ParticleState>,
                   g1: seq<seq<Option<Particle>>>, s1: map<Particle, ParticleState>,
                   rows: nat, p: Params, draws: (int, int) -> Draws, lo: int, hi: int)
    requires Swept(tr, g0, s0, g1, s1, rows, p, draws) && tr.cells == ScanOrder(lo, hi, rows)
    ensures Count(g1) == Count(g0) && GluedKept(g0, g1) && KeptOutside(g0, g1, lo, hi)
  {
    forall k | 0 <= k < |tr.cells|
      ensures lo <= tr.cells[k].0 < hi
    {
      ScanOrderCells(lo, hi, rows, tr.cells[k]);
    }
    TraceKeeps(tr, |tr.cells|, rows, p, draws, lo, hi);
  }

  class Particle {
    var x: int
    var y: int
    const kind: Kind
    var color: Color
    const glued: bool
    var colorChangeCounter: nat
    var fallSpeed: real

    constructor (x: int, y: int, kind: Kind, color: Color, glued: bool)
      ensures this.x == x && this.y == y && this.kind == kind && this.color == color && this.glued == glued
      ensures colorChangeCounter == 0 && fallSpeed == INITIAL_FALL_SPEED
    {
      this.x := x;
      this.y := y;
      this.kind := kind;
      this.color := color;
      this.glued := glued;
      colorChangeCounter := 0;
      fallSpeed := INITIAL_FALL_SPEED;
    }

    /** Relocates this particle into an empty cell: the destination receives it,
        its old cell is cleared, and its coordinates follow. */
    method MoveTo(world: World, nx: int, ny: int)
      requires world.Valid() && world.Holds(this)
      requires 0 <= nx < world.cols && 0 <= ny < world.rows && world.grid[nx][ny].None?
      modifies this`x, this`y, world`grid
      ensures world.Valid() && world.Holds(this)
      ensures x == nx && y == ny
      ensures world.grid == Moved(old(world.grid), old(x), old(y), nx, ny)
      ensures Count(world.grid) == old(Count(world.grid))
    {
      CountMoved(world.grid, x, y, nx, ny);
      world.grid := Set(world.grid, nx, ny, world.grid[x][y]);
      world.grid := Set(world.grid, x, y, None);
      x, y := nx, ny;
      forall q | q in world.particles
        ensures world.Holds(q)
      {
        if q != this {
          assert old(world.Holds(q));
        }
      }
    }

    /** One tick of this particle. A glued particle is left as it is. Otherwise
        fall_speed accelerates; if the clamped target row and the next row in the
        gravity direction are in the grid, sand and magic dust may first be
        blown sideways by the wind, then the particle steps one row if that
        cell is empty, or else water flows left or right in its row and sand and
        magic dust slide diagonally left or right on a roll. A non-glued magic
        dust particle finally advances its colour counter. */
    method Fall(world: World, params: Params, d: Draws)
      requires world.Valid() && world.Holds(this) && |params.palette| > 0
      modifies this`x, this`y, this`fallSpeed, this`colorChangeCounter, this`color, world`grid
      ensures world.Valid() && world.Holds(this)
      ensures glued ==>
        x == old(x) && y == old(y) && fallSpeed == old(fallSpeed) &&
        colorChangeCounter == old(colorChangeCounter) && color == old(color) && world.grid == old(world.grid)
      ensures !glued ==> fallSpeed == NextFallSpeed(old(fallSpeed), params.gravity)
      ensures !glued ==> (x, y) == Destination(old(world.grid), world.rows, old(x), old(y), kind, fallSpeed, params, d)
      ensures world.grid == if x == old(x) && y == old(y) then old(world.grid) else Moved(old(world.grid), old(x), old(y), x, y)
      ensures x != old(x) || y != old(y) ==> old(world.grid)[x][y].None?
      ensures Count(world.grid) == old(Count(world.grid))
      ensures kind == MagicDust && !glued ==>
        (colorChangeCounter, color) == Recolor(old(colorChangeCounter), old(color), params.palette, d.paletteIndex)
      ensures kind != MagicDust ==> colorChangeCounter == old(colorChangeCounter) && color == old(color)
    {
      if glued {
        return;
      }
      AccelerateAndMove(world, params, d);
    }

    /** `fall` of a particle that is not glued: accelerate, move, and, for
        magic dust, advance the colour cycle. */
    method AccelerateAndMove(world: World, params: Params, d: Draws)
      requires world.Valid() && world.Holds(this) && |params.palette| > 0
      modifies this`x, this`y, this`fallSpeed, this`colorChangeCounter, this`color, world`grid
      ensures world.Valid() && world.Holds(this)
      ensures fallSpeed == NextFallSpeed(old(fallSpeed), params.gravity)
      ensures (x, y) == Destination(old(world.grid), world.rows, old(x), old(y), kind, fallSpeed, params, d)
      ensures world.grid == if x == old(x) && y == old(y) then old(world.grid) else Moved(old(world.grid), old(x), old(y), x, y)
      ensures x != old(x) || y != old(y) ==> old(world.grid)[x][y].None?
      ensures Count(world.grid) == old(Count(world.grid))
      ensures kind == MagicDust ==>
        (colorChangeCounter, color) == Recolor(old(colorChangeCounter), old(color), params.palette, d.paletteIndex)
      ensures kind != MagicDust ==> colorChangeCounter == old(colorChangeCounter) && color == old(color)
    {
      Move(world, params, d);

      if kind == MagicDust {
        AdvanceColor(params, d);
      }
    }

    /** The colour cycle of magic dust: the counter goes up by one, and every
        fifth tick the colour is re-picked from the palette. */
    method AdvanceColor(params: Params, d: Draws)
      requires |params.palette| > 0
      modifies this`colorChangeCounter, this`color
      ensures (colorChangeCounter, color) == Recolor(old(colorChangeCounter), old(color), params.palette, d.paletteIndex)
    {
      colorChangeCounter := colorChangeCounter + 1;
      if colorChangeCounter % COLOR_PERIOD == 0 {
        color := params.palette[d.paletteIndex % |params.palette|];
      }
    }

    /** The movement part of `fall`: fall_speed is increased, then the clamped
        target row `y + fall_speed` must be in the grid, and so must the next
        row in the gravity direction; then the wind pass and the vertical
        resolution run in turn. */
    method Move(world: World, params: Params, d: Draws)
      requires world.Valid() && world.Holds(this)
      modifies this`x, this`y, this`fallSpeed, world`grid
      ensures world.Valid() && world.Holds(this)
      ensures fallSpeed == NextFallSpeed(old(fallSpeed), params.gravity)
      ensures (x, y) == Destination(old(world.grid), world.rows, old(x), old(y), kind, fallSpeed, params, d)
      ensures world.grid == if x == old(x) && y == old(y) then old(world.grid) else Moved(old(world.grid), old(x), old(y), x, y)
      ensures x != old(x) || y != old(y) ==> old(world.grid)[x][y].None?
      ensures Count(world.grid) == old(Count(world.grid))
    {
      fallSpeed := fallSpeed + params.gravity * GRAVITY_SCALE;
      ghost var g0, x0, y0 := world.grid, x, y;
      var targetY := y as real + fallSpeed;
      if targetY >= world.rows as real {
        targetY := (world.rows - 1) as real;
      }

      if 0.0 <= targetY < world.rows as real {
        var direction := if params.gravity > 0.0 then 1 else -1;
        var newY := y + direction;

        if 0 <= x < world.cols && 0 <= newY < world.rows {
          Step(world, params, d, newY);
        } else {
          assert !MayMove(y0, fallSpeed, world.rows, params.gravity);
        }
      } else {
        assert !MayMove(y0, fallSpeed, world.rows, params.gravity);
      }
    }

    /** The wind pass followed by the vertical resolution toward row newY, once
        the guards of `fall` have passed. */
    method Step(world: World, params: Params, d: Draws, newY: int)
      requires world.Valid() && world.Holds(this)
      requires MayMove(y, fallSpeed, world.rows, params.gravity) && newY == y + Direction(params.gravity)
      modifies this`x, this`y, world`grid
      ensures world.Valid() && world.Holds(this)
      ensures (x, y) == Destination(old(world.grid), world.rows, old(x), old(y), kind, fallSpeed, params, d)
      ensures world.grid == if x == old(x) && y == old(y) then old(world.grid) else Moved(old(world.grid), old(x), old(y), x, y)
      ensures x != old(x) || y != old(y) ==> old(world.grid)[x][y].None?
      ensures Count(world.grid) == old(Count(world.grid))
    {
      ghost var g0, x0, y0 := world.grid, x, y;
      WindStep(world, params, d);
      ghost var g1, x1 := world.grid, x;
      GravityStep(world, newY, d);
      DestinationInSteps(g0, world.rows, x0, y0, kind, fallSpeed, params, d, x1, g1, x, y);
    }

    /** The wind pass of `fall`: sand and magic dust, on a 5% roll, move
        `wind` columns to the drawn side if that cell is in the grid and empty. */
    method WindStep(world: World, params: Params, d: Draws)
      requires world.Valid() && world.Holds(this)
      modifies this`x, this`y, world`grid
      ensures world.Valid() && world.Holds(this) && y == old(y)
      ensures x == WindColumn(old(world.grid), world.rows, old(x), y, kind, params.wind, d)
      ensures world.grid == if x == old(x) then old(world.grid) else Moved(old(world.grid), old(x), y, x, y)
      ensures Count(world.grid) == old(Count(world.grid))
    {
      if (kind == Sand || kind == MagicDust) && d.windRoll < WIND_CHANCE {
        var windDirection := (if d.windRight then 1 else -1) * params.wind;
        var newX := x + windDirection;
        if 0 <= newX < world.cols && world.grid[newX][y].None? {
          MoveTo(world, newX, y);
        }
      }
    }

    /** The vertical resolution of `fall`: step to row newY if that cell is
        empty; otherwise water tries its left then its right neighbour, and sand
        and magic dust try diagonal-left then diagonal-right, each on a roll. */
    method GravityStep(world: World, newY: int, d: Draws)
      requires world.Valid() && world.Holds(this) && 0 <= newY < world.rows
      modifies this`x, this`y, world`grid
      ensures world.Valid() && world.Holds(this)
      ensures (x, y) == Resolve(old(world.grid), world.rows, old(x), old(y), newY, kind, d)
      ensures world.grid == if x == old(x) && y == old(y) then old(world.grid) else Moved(old(world.grid), old(x), old(y), x, y)
      ensures Count(world.grid) == old(Count(world.grid))
    {
      var spreadChance := SpreadChance(kind);
      if world.grid[x][newY].None? {
        MoveTo(world, x, newY);
      } else {
        if kind == Water {
          if x > 0 && world.grid[x - 1][y].None? {
            MoveTo(world, x - 1, y);
          } else if x < world.cols - 1 && world.grid[x + 1][y].None? {
            MoveTo(world, x + 1, y);
          }
        } else if x > 0 && world.grid[x - 1][newY].None? && d.leftRoll < spreadChance {
          MoveTo(world, x - 1, newY);
        } else if x < world.cols - 1 && world.grid[x + 1][newY].None? && d.rightRoll < spreadChance {
          MoveTo(world, x + 1, newY);
        }
      }
    }
  }

  class World {
    var gridSize: nat
    var cols: nat
    var rows: nat
    var grid: seq<seq<Option<Particle>>>
    /** The particles on the grid. */
    ghost var particles: set<Particle>

    /** The consistency invariant: the dimensions follow from the cell size, the
        grid is cols x rows, every occupied cell (x, y) holds a particle whose
        own coordinates are (x, y), and every particle of `particles` sits in
        the cell its coordinates name. */
    ghost predicate Valid()
      reads this, particles`x, particles`y
    {
      gridSize > 0 && cols == Cols(gridSize) && rows == Rows(gridSize) &&
      |grid| == cols && Rect(grid, rows) &&
      (forall i, j :: 0 <= i < cols && 0 <= j < rows && grid[i][j].Some? ==>
        grid[i][j].value in particles && grid[i][j].value.x == i && grid[i][j].value.y == j) &&
      forall q {:trigger Holds(q)} :: q in particles ==> Holds(q)
    }

    /** p sits in the cell its coordinates name. */
    ghost predicate Holds(p: Particle)
      reads this, p`x, p`y
    {
      0 <= p.x < |grid| && 0 <= p.y < |grid[p.x]| && grid[p.x][p.y] == Some(p)
    }

    /** Under the invariant the particle set and the grid stay in step: there
        are exactly as many particles as occupied cells. */
    lemma ParticleCount()
      requires Valid()
      ensures Count(grid) == |particles|
    {
      assert Distinct(grid) by {
        forall i, j, i2, j2 | 0 <= i < |grid| && 0 <= j < |grid[i]| && 0 <= i2 < |grid| && 0 <= j2 < |grid[i2]| &&
          grid[i][j].Some? && grid[i][j] == grid[i2][j2]
          ensures i == i2 && j == j2
        {
          assert grid[i][j].value.x == i && grid[i2][j2].value.x == i2;
        }
      }
      CountOccupants(grid);
      forall q | q in particles
        ensures q in Occupants(grid)
      {
        assert Holds(q);
        OccupantsIn(grid, q);
      }
      forall q | q in Occupants(grid)
        ensures q in particles
      {
        OccupantsIn(grid, q);
      }
      assert Occupants(grid) == particles;
    }

    /** The start-up state: cell size 5, hence a 240 x 120 empty grid. */
    constructor ()
      ensures Valid() && gridSize == INITIAL_GRID_SIZE && cols == 240 && rows == 120
      ensures grid == CreateGrid(cols, rows) && particles == {}
    {
      gridSize := INITIAL_GRID_SIZE;
      var c, r := WIDTH / INITIAL_GRID_SIZE, (HEIGHT - UI_HEIGHT) / INITIAL_GRID_SIZE;
      cols, rows := c, r;
      grid := CreateGrid(c, r);
      particles := {};
    }

    /** Applies the cell size read from the slider: a change recomputes the
        dimensions and replaces the grid with an empty one. */
    method SetGridSize(newGridSize: nat)
      requires Valid() && newGridSize > 0
      modifies this
      ensures Valid()
      ensures newGridSize == old(gridSize) ==>
        gridSize == old(gridSize) && cols == old(cols) && rows == old(rows) &&
        grid == old(grid) && particles == old(particles)
      ensures newGridSize != old(gridSize) ==>
        gridSize == newGridSize && cols == Cols(newGridSize) && rows == Rows(newGridSize) &&
        grid == CreateGrid(cols, rows) && Count(grid) == 0 && particles == {}
    {
      if newGridSize != gridSize {
        var c, r := Cols(newGridSize), Rows(newGridSize);
        var g := CreateGrid<Particle>(c, r);
        CountCreateGrid<Particle>(c, r);
        gridSize, cols, rows, grid, particles := newGridSize, c, r, g, {};
      }
    }

    /** Places a new particle at cell (gx, gy) if that cell is in the grid and empty. */
    method Spawn(gx: nat, gy: nat, kind: Kind, color: Color, glued: bool) returns (placed: bool)
      requires Valid()
      modifies this`grid, this`particles
      ensures Valid()
      ensures placed <==> CanSpawn(old(grid), rows, gx, gy)
      ensures !placed ==> grid == old(grid) && particles == old(particles)
      ensures placed ==>
        grid[gx][gy].Some? && fresh(grid[gx][gy].value) &&
        grid == Set(old(grid), gx, gy, grid[gx][gy]) &&
        particles == old(particles) + {grid[gx][gy].value}
      ensures placed ==>
        var p := grid[gx][gy].value;
        p.x == gx && p.y == gy && p.kind == kind && p.color == color && p.glued == glued &&
        p.fallSpeed == INITIAL_FALL_SPEED && p.colorChangeCounter == 0
      ensures Count(grid) == old(Count(grid)) + (if placed then 1 else 0)
    {
      placed := gx < cols && gy < rows && grid[gx][gy].None?;
      if placed {
        var p := new Particle(gx, gy, kind, color, glued);
        CountSet(grid, gx, gy, Some(p));
        grid := Set(grid, gx, gy, Some(p));
        particles := particles + {p};
        forall q | q in particles
          ensures Holds(q)
        {
          if q != p {
            assert old(Holds(q));
          }
        }
      }
    }

    /** The left mouse button: sand, or magic dust when that mode is on, glued
        when the glue mode is on, at the cell under the mouse. */
    method LeftButton(mouseX: nat, mouseY: nat, magicDustActive: bool, color: Color, glueActive: bool) returns (placed: bool)
      requires Valid()
      modifies this`grid, this`particles
      ensures Valid()
      ensures placed <==> CanSpawn(old(grid), rows, PixelToCell(mouseX, gridSize), PixelToCell(mouseY, gridSize))
      ensures !placed ==> grid == old(grid) && particles == old(particles)
      ensures placed ==>
        var gx, gy := PixelToCell(mouseX, gridSize), PixelToCell(mouseY, gridSize);
        gx < |grid| && gy < |grid[gx]| && grid[gx][gy].Some? && fresh(grid[gx][gy].value) &&
        grid == Set(old(grid), gx, gy, grid[gx][gy]) &&
        particles == old(particles) + {grid[gx][gy].value}
      ensures placed ==>
        var gx, gy := PixelToCell(mouseX, gridSize), PixelToCell(mouseY, gridSize);
        gx < |grid| && gy < |grid[gx]| && grid[gx][gy].Some? &&
        var p := grid[gx][gy].value;
        p.x == gx && p.y == gy && p.kind == (if magicDustActive then MagicDust else Sand) &&
        p.color == color && p.glued == glueActive &&
        p.fallSpeed == INITIAL_FALL_SPEED && p.colorChangeCounter == 0
      ensures Count(grid) == old(Count(grid)) + (if placed then 1 else 0)
    {
      var gx, gy := PixelToCell(mouseX, gridSize), PixelToCell(mouseY, gridSize);
      var kind := if magicDustActive then MagicDust else Sand;
      placed := Spawn(gx, gy, kind, color, glueActive);
    }

    /** The right mouse button: a non-glued water particle at the cell under the
        mouse, with the column bound checked as on the left button. */
    method RightButton(mouseX: nat, mouseY: nat) returns (placed: bool)
      requires Valid()
      modifies this`grid, this`particles
      ensures Valid()
      ensures placed <==> CanSpawn(old(grid), rows, PixelToCell(mouseX, gridSize), PixelToCell(mouseY, gridSize))
      ensures !placed ==> grid == old(grid) && particles == old(particles)
      ensures placed ==>
        var gx, gy := PixelToCell(mouseX, gridSize), PixelToCell(mouseY, gridSize);
        gx < |grid| && gy < |grid[gx]| && grid[gx][gy].Some? && fresh(grid[gx][gy].value) &&
        grid == Set(old(grid), gx, gy, grid[gx][gy]) &&
        particles == old(particles) + {grid[gx][gy].value}
      ensures placed ==>
        var gx, gy := PixelToCell(mouseX, gridSize), PixelToCell(mouseY, gridSize);
        gx < |grid| && gy < |grid[gx]| && grid[gx][gy].Some? &&
        var p := grid[gx][gy].value;
        p.x == gx && p.y == gy && p.kind == Water && p.color == WATER_COLOR && !p.glued &&
        p.fallSpeed == INITIAL_FALL_SPEED && p.colorChangeCounter == 0
      ensures Count(grid) == old(Count(grid)) + (if placed then 1 else 0)
    {
      var gx, gy := PixelToCell(mouseX, gridSize), PixelToCell(mouseY, gridSize);
      placed := Spawn(gx, gy, Water, WATER_COLOR, false);
    }

    /** One worker's sweep over the columns [xStart, xEnd): each column from the
        bottom row up, calling `Fall` on every cell that is occupied when the
        sweep reaches it. draws(x, y) are the random draws of the call made at
        cell (x, y). The ghost result records each step. */
    method UpdateParticles(xStart: int, xEnd: int, params: Params, draws: (int, int) -> Draws)
      returns (ghost tr: Trace)
      requires Valid() && |params.palette| > 0
      requires 0 <= xStart && xEnd <= cols
      modifies this`grid, particles
      ensures Valid()
      ensures Count(grid) == old(Count(grid))
      ensures GluedKept(old(grid), grid)
      ensures KeptOutside(old(grid), grid, xStart, xEnd)
      ensures forall q :: q in particles && (q.glued || old(q.x) < xStart || xEnd <= old(q.x)) ==>
        q.x == old(q.x) && q.y == old(q.y)
      ensures Swept(tr, old(grid), old(StatesOf(particles)), grid, StatesOf(particles), rows, params, draws)
      ensures tr.cells == ScanOrder(xStart, xEnd, rows)
    {
      ghost var g0, s0 := grid, StatesOf(particles);
      tr := Unvisited(grid, s0);
      UnvisitedSwept(grid, s0, rows, params, draws);
      var x := xStart;
      while x < xEnd
        invariant xStart <= x && (x <= xEnd || x == xStart)
        invariant Valid()
        invariant Swept(tr, g0, s0, grid, StatesOf(particles), rows, params, draws)
        invariant tr.cells == ScanOrder(xStart, x, rows)
      {
        ghost var before, s := grid, StatesOf(particles);
        ghost var column := SweepColumn(x, params, draws);
        SweptThen(tr, column, g0, s0, before, s, grid, StatesOf(particles), rows, params, draws);
        tr := Then(tr, column);
        x := x + 1;
      }
      SweptKeeps(tr, g0, s0, grid, StatesOf(particles), rows, params, draws, xStart, xEnd);
      forall q | q in particles && (q.glued || old(q.x) < xStart || xEnd <= old(q.x))
        ensures q.x == old(q.x) && q.y == old(q.y)
      {
        assert old(Holds(q));
      }
    }

    /** The inner loop of the sweep: column x from the bottom row up to row 0. */
    method SweepColumn(x: int, params: Params, draws: (int, int) -> Draws)
      returns (ghost tr: Trace)
      requires Valid() && |params.palette| > 0
      requires 0 <= x < cols
      modifies this`grid, particles
      ensures Valid()
      ensures Swept(tr, old(grid), old(StatesOf(particles)), grid, StatesOf(particles), rows, params, draws)
      ensures tr.cells == ColumnScan(x, rows)
    {
      ghost var g0, s0 := grid, StatesOf(particles);
      tr := Unvisited(grid, s0);
      UnvisitedSwept(grid, s0, rows, params, draws);
      var y := rows - 1;
      while y >= 0
        invariant -1 <= y < rows
        invariant Valid()
        invariant Swept(tr, g0, s0, grid, StatesOf(particles), rows, params, draws)
        invariant tr.cells == ColumnScan(x, rows)[..rows - 1 - y]
      {
        ghost var before, s := grid, StatesOf(particles);
        ghost var step := VisitCell(x, y, params, draws);
        SweptThen(tr, step, g0, s0, before, s, grid, StatesOf(particles), rows, params, draws);
        tr := Then(tr, step);
        assert ColumnScan(x, rows)[..rows - 1 - (y - 1)] == ColumnScan(x, rows)[..rows - 1 - y] + [(x, y)];
        y := y - 1;
      }
      assert ColumnScan(x, rows)[..rows] == ColumnScan(x, rows);
    }

    /** The body of the sweep at cell (x, y): `fall` on its occupant, if any;
        nothing but the grid and that occupant changes. */
    method VisitCell(x: int, y: int, params: Params, draws: (int, int) -> Draws) returns (ghost tr: Trace)
      requires Valid() && |params.palette| > 0
      requires 0 <= x < cols && 0 <= y < rows
      modifies this`grid, if grid[x][y].Some? then {grid[x][y].value} else {}
      ensures Valid()
      ensures Swept(tr, old(grid), old(StatesOf(particles)), grid, StatesOf(particles), rows, params, draws)
      ensures tr.cells == [(x, y)]
    {
      ghost var g0, s0 := grid, StatesOf(particles);
      var particle := grid[x][y];
      if particle.Some? {
        var p := particle.value;
        p.Fall(this, params, draws(x, y));
        assert StatesOf(particles) == s0[p := ParticleState(p.fallSpeed, p.colorChangeCounter, p.color)];
        VisitSwept(g0, grid, s0, StatesOf(particles), x, y, particle, (p.x, p.y), p.fallSpeed, rows, params, draws);
        tr := Trace([(x, y)], [g0, grid], [particle], [(p.x, p.y)], [p.fallSpeed], s0);
      } else {
        VisitSwept(g0, grid, s0, StatesOf(particles), x, y, particle, (x, y), 0.0, rows, params, draws);
        tr := Trace([(x, y)], [g0, grid], [particle], [(x, y)], [0.0], s0);
      }
    }

    /** One frame's update: the four bands of `cols // 4` columns swept one
        after the other, which together sweep the columns [0, 4 * (cols // 4)). */
    method Tick(params: Params, draws: (int, int) -> Draws) returns (ghost tr: Trace)
      requires Valid() && |params.palette| > 0
      modifies this`grid, particles
      ensures Valid()
      ensures Count(grid) == old(Count(grid))
      ensures GluedKept(old(grid), grid)
      ensures KeptOutside(old(grid), grid, 0, Covered(cols))
      ensures forall q :: q in particles && (q.glued || Covered(cols) <= old(q.x)) ==>
        q.x == old(q.x) && q.y == old(q.y)
      ensures Swept(tr, old(grid), old(StatesOf(particles)), grid, StatesOf(particles), rows, params, draws)
      ensures tr.cells == ScanOrder(0, Covered(cols), rows)
    {
      tr := SweepBands(params, draws);
      SweptKeeps(tr, old(grid), old(StatesOf(particles)), grid, StatesOf(particles), rows, params, draws, 0, Covered(cols));
      forall q | q in particles && (q.glued || Covered(cols) <= old(q.x))
        ensures q.x == old(q.x) && q.y == old(q.y)
      {
        assert old(Holds(q));
      }
    }

    /** The band loop of the frame: `update_particles` on band i, for i from 0 to 3. */
    method SweepBands(params: Params, draws: (int, int) -> Draws) returns (ghost tr: Trace)
      requires Valid() && |params.palette| > 0
      modifies this`grid, particles
      ensures Valid()
      ensures Swept(tr, old(grid), old(StatesOf(particles)), grid, StatesOf(particles), rows, params, draws)
      ensures tr.cells == ScanOrder(0, Covered(cols), rows)
    {
      ghost var g0, s0 := grid, StatesOf(particles);
      tr := Unvisited(grid, s0);
      UnvisitedSwept(grid, s0, rows, params, draws);
      var i := 0;
      while i < NUM_THREADS
        invariant 0 <= i <= NUM_THREADS
        invariant Valid()
        invariant Swept(tr, g0, s0, grid, StatesOf(particles), rows, params, draws)
        invariant tr.cells == ScanOrder(0, i * BandWidth(cols), rows)
      {
        var xStart := i * (cols / NUM_THREADS);
        var xEnd := (i + 1) * (cols / NUM_THREADS);
        BandBounds(cols, i);
        ghost var before, s := grid, StatesOf(particles);
        ghost var band := UpdateParticles(xStart, xEnd, params, draws);
        SweptThen(tr, band, g0, s0, before, s, grid, StatesOf(particles), rows, params, draws);
        ScanOrderSplit(0, xStart, xEnd, rows);
        tr := Then(tr, band);
        i := i + 1;
      }
    }
  }

  lemma GluedKeptTrans(g0: seq<seq<Option<Particle>>>, g1: seq<seq<Option<Particle>>>, g2: seq<seq<Option<Particle>>>)
    requires GluedKept(g0, g1) && GluedKept(g1, g2)
    ensures GluedKept(g0, g2)
  {
  }

  /** A cell-by-cell sweep of [lo, hi) keeps everything outside the band. */
  lemma KeptOutsideTrans(g0: seq<seq<Option<Particle>>>, g1: seq<seq<Option<Particle>>>, g2: seq<seq<Option<Particle>>>,
                         lo: int, hi: int, x: int)
    requires KeptOutside(g0, g1, lo, hi) && KeptOutside(g1, g2, x, x + 1) && lo <= x < hi
    ensures KeptOutside(g0, g2, lo, hi)
  {
  }

  /** The destination of a move is the wind pass followed by the vertical
      resolution, and the grid after both moves is the grid after the single
      move from the start cell to the destination. */
  lemma DestinationInSteps<T>(g0: seq<seq<Option<T>>>, rows: nat, x0: int, y0: int, kind: Kind, speed: real, p: Params, d: Draws,
                              x1: int, g1: seq<seq<Option<T>>>, x2: int, y2: int)
    requires Rect(g0, rows) && InBounds(g0, rows, x0, y0) && g0[x0][y0].Some?
    requires MayMove(y0, speed, rows, p.gravity)
    requires x1 == WindColumn(g0, rows, x0, y0, kind, p.wind, d)
    requires g1 == if x1 == x0 then g0 else Moved(g0, x0, y0, x1, y0)
    requires (x2, y2) == Resolve(g1, rows, x1, y0, y0 + Direction(p.gravity), kind, d)
    ensures (x2, y2) == Destination(g0, rows, x0, y0, kind, speed, p, d)
    ensures InBounds(g0, rows, x2, y2)
    ensures (if x2 == x1 && y2 == y0 then g1 else Moved(g1, x1, y0, x2, y2)) ==
            (if x2 == x0 && y2 == y0 then g0 else Moved(g0, x0, y0, x2, y2))
  {
    if x1 != x0 && (x2 != x1 || y2 != y0) {
      MovedTwice(g0, x0, y0, x1, y0, x2, y2);
    }
  }
}
