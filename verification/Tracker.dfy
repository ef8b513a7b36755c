/** Connected-component labelling in the motion tracker (crates/tracker/src/lib.rs): an iterative
    flood fill over a grid of fired cells, with fixed-capacity buffers whose failed pushes would be
    silently dropped. */
module Tracker {
  import opened MachineInts

  const MAX_BLOCKS_X: nat := 16
  const MAX_BLOCKS_Y: nat := 16
  const MAX_BLOCKS: nat := 256

  datatype Cell = Cell(x: nat, y: nat)

  datatype Blob = Blob(sumX: U16, sumY: U16, cellCount: U16)

  // ---- The grid ----

  datatype Grid = Grid(cols: nat, rows: nat) {
    /** Both extents are clamped by the caller. */
    predicate Valid() { cols <= MAX_BLOCKS_X && rows <= MAX_BLOCKS_Y }

    predicate Has(c: Cell) { c.x < cols && c.y < rows }

    /** Row-major position. */
    function Index(c: Cell): nat { c.y * cols + c.x }
  }

  lemma RowsApart(cols: nat, a: nat, b: nat)
    requires a < b
    ensures a * cols + cols <= b * cols
  {
    ProductMonotone(a + 1, b, cols);
    assert (a + 1) * cols == a * cols + cols;
  }

  lemma IndexBound(g: Grid, c: Cell)
    requires g.Valid() && g.Has(c)
    ensures g.Index(c) < MAX_BLOCKS
  {
    RowsApart(g.cols, c.y, g.rows);
    ProductBound(g.rows, g.cols, 16, 16);
  }

  lemma IndexInjective(g: Grid, c: Cell, d: Cell)
    requires g.Has(c) && g.Has(d) && g.Index(c) == g.Index(d)
    ensures c == d
  {
    if c.y < d.y {
      RowsApart(g.cols, c.y, d.y);
    } else if d.y < c.y {
      RowsApart(g.cols, d.y, c.y);
    }
  }

  predicate Adjacent(c: Cell, d: Cell) {
    (c.x == d.x && (c.y == d.y + 1 || d.y == c.y + 1)) || (c.y == d.y && (c.x == d.x + 1 || d.x == c.x + 1))
  }

  // ---- Connection ----

  /** A walk over fired cells from neighbour to neighbour. */
  ghost predicate IsPath(fired: set<Cell>, p: seq<Cell>) {
    && p != [] && (forall i :: 0 <= i < |p| ==> p[i] in fired)
    && forall i :: 1 <= i < |p| ==> Adjacent(p[i - 1], p[i])
  }

  ghost predicate Joins(fired: set<Cell>, p: seq<Cell>, a: Cell, b: Cell) {
    IsPath(fired, p) && p[0] == a && p[|p| - 1] == b
  }

  ghost predicate Reaches(fired: set<Cell>, a: Cell, b: Cell) { exists p :: Joins(fired, p, a, b) }

  lemma ReachesSelf(fired: set<Cell>, a: Cell)
    requires a in fired
    ensures Reaches(fired, a, a)
  {
    assert Joins(fired, [a], a, a);
  }

  lemma ReachesNext(fired: set<Cell>, a: Cell, b: Cell, c: Cell)
    requires Reaches(fired, a, b) && c in fired && Adjacent(b, c)
    ensures Reaches(fired, a, c)
  {
    var p :| Joins(fired, p, a, b);
    assert Joins(fired, p + [c], a, c);
  }

  lemma ReachesFrom(fired: set<Cell>, a: Cell, b: Cell, c: Cell)
    requires Reaches(fired, b, c) && a in fired && Adjacent(a, b)
    ensures Reaches(fired, a, c)
  {
    var p :| Joins(fired, p, b, c);
    assert Joins(fired, [a] + p, a, c);
  }

  lemma {:induction false} BackAlong(fired: set<Cell>, p: seq<Cell>, a: Cell, b: Cell)
    requires Joins(fired, p, a, b)
    ensures Reaches(fired, b, a)
    decreases |p|
  {
    if |p| == 1 {
      ReachesSelf(fired, a);
    } else {
      var n := |p| - 1;
      assert Joins(fired, p[..n], a, p[n - 1]);
      BackAlong(fired, p[..n], a, p[n - 1]);
      ReachesFrom(fired, b, p[n - 1], a);
    }
  }

  lemma {:induction false} OnAlong(fired: set<Cell>, a: Cell, p: seq<Cell>, b: Cell, c: Cell)
    requires Reaches(fired, a, b) && Joins(fired, p, b, c)
    ensures Reaches(fired, a, c)
    decreases |p|
  {
    if |p| == 1 {
    } else {
      var n := |p| - 1;
      assert Joins(fired, p[..n], b, p[n - 1]);
      OnAlong(fired, a, p[..n], b, p[n - 1]);
      ReachesNext(fired, a, p[n - 1], c);
    }
  }

  /** Two cells that one cell reaches reach each other. */
  lemma ReachesEachOther(fired: set<Cell>, s: Cell, a: Cell, b: Cell)
    requires Reaches(fired, s, a) && Reaches(fired, s, b)
    ensures Reaches(fired, a, b)
  {
    var p :| Joins(fired, p, s, a);
    var q :| Joins(fired, q, s, b);
    BackAlong(fired, p, s, a);
    OnAlong(fired, a, q, s, b);
  }

  /** No fired neighbour of a member is outside. */
  ghost predicate Closed(fired: set<Cell>, s: set<Cell>) {
    forall c, d :: c in s && d in fired && Adjacent(c, d) ==> d in s
  }

  lemma {:induction false} PathStays(fired: set<Cell>, s: set<Cell>, p: seq<Cell>, a: Cell, b: Cell)
    requires Closed(fired, s) && Joins(fired, p, a, b) && a in s
    ensures b in s
    decreases |p|
  {
    if |p| == 1 {
    } else {
      var n := |p| - 1;
      assert Joins(fired, p[..n], a, p[n - 1]);
      PathStays(fired, s, p[..n], a, p[n - 1]);
      assert Adjacent(p[n - 1], p[n]);
    }
  }

  lemma ReachStays(fired: set<Cell>, s: set<Cell>, a: Cell, b: Cell)
    requires Closed(fired, s) && a in s && Reaches(fired, a, b)
    ensures b in s
  {
    var p :| Joins(fired, p, a, b);
    PathStays(fired, s, p, a, b);
  }

  /** `blob` is exactly the fired cells that `seed` reaches. */
  ghost predicate IsComponent(fired: set<Cell>, seed: Cell, blob: set<Cell>) {
    seed in blob && blob <= fired && forall c :: c in blob <==> Reaches(fired, seed, c)
  }

  // ---- Sums over cells ----

  ghost function SumX(s: set<Cell>): nat
    decreases |s|
  {
    if s == {} then 0 else
      var c :| c in s;
      c.x + SumX(s - {c})
  }

  ghost function SumY(s: set<Cell>): nat
    decreases |s|
  {
    if s == {} then 0 else
      var c :| c in s;
      c.y + SumY(s - {c})
  }

  lemma {:induction false} SumXAdd(s: set<Cell>, c: Cell)
    requires c !in s
    ensures SumX(s + {c}) == SumX(s) + c.x
    decreases |s|
  {
    var t := s + {c};
    var d :| d in t && SumX(t) == d.x + SumX(t - {d});
    if d == c {
      assert t - {d} == s;
    } else {
      assert t - {d} == (s - {d}) + {c} && (s - {d}) + {d} == s;
      SumXAdd(s - {d}, c);
      SumXAdd(s - {d}, d);
    }
  }

  lemma {:induction false} SumYAdd(s: set<Cell>, c: Cell)
    requires c !in s
    ensures SumY(s + {c}) == SumY(s) + c.y
    decreases |s|
  {
    var t := s + {c};
    var d :| d in t && SumY(t) == d.y + SumY(t - {d});
    if d == c {
      assert t - {d} == s;
    } else {
      assert t - {d} == (s - {d}) + {c} && (s - {d}) + {d} == s;
      SumYAdd(s - {d}, c);
      SumYAdd(s - {d}, d);
    }
  }

  ghost predicate Summarizes(b: Blob, s: set<Cell>) {
    b.sumX == SumX(s) && b.sumY == SumY(s) && b.cellCount == |s|
  }

  // ---- No buffer is too small ----

  ghost predicate Within(g: Grid, s: set<Cell>) { forall c :: c in s ==> g.Has(c) }

  lemma {:induction false} RowSize(x: nat, y: nat, s: set<Cell>)
    requires forall c :: c in s ==> c.y == y && c.x < x
    ensures |s| <= x
  {
    if x == 0 {
      assert s == {};
    } else {
      RowSize(x - 1, y, s - {Cell(x - 1, y)});
    }
  }

  lemma {:induction false} GridSize(cols: nat, rows: nat, s: set<Cell>)
    requires forall c :: c in s ==> c.x < cols && c.y < rows
    ensures |s| <= rows * cols
    decreases rows
  {
    if rows == 0 {
      assert s == {};
    } else {
      var y := rows - 1;
      var row := set c | c in s && c.y == y;
      RowSize(cols, y, row);
      GridSize(cols, y, s - row);
      SplitSize(s, row);
      NextRow(cols, y);
    }
  }

  lemma SplitSize(s: set<Cell>, t: set<Cell>)
    requires t <= s
    ensures |s| == |s - t| + |t|
  {
    assert s == (s - t) + t;
  }

  lemma NextRow(cols: nat, y: nat)
    ensures y * cols + cols == (y + 1) * cols
  {
  }

  lemma FiredFits(g: Grid, s: set<Cell>)
    requires g.Valid() && Within(g, s)
    ensures |s| <= MAX_BLOCKS
  {
    GridSize(g.cols, g.rows, s);
    ProductBound(g.rows, g.cols, 16, 16);
  }

  lemma {:induction false} SumsFit(g: Grid, s: set<Cell>)
    requires g.Valid() && Within(g, s)
    ensures SumX(s) <= 16 * |s| && SumY(s) <= 16 * |s|
    decreases |s|
  {
    if s == {} {
    } else {
      var c :| c in s;
      SumsFit(g, s - {c});
      assert s == (s - {c}) + {c};
      SumXAdd(s - {c}, c);
      SumYAdd(s - {c}, c);
    }
  }

  lemma SubsetSize(s: set<Cell>, t: set<Cell>)
    requires s <= t
    ensures |s| <= |t|
  {
    assert t == s + (t - s);
  }

  ghost predicate Distinct(s: seq<Cell>) { forall i, j :: 0 <= i < j < |s| ==> s[i] != s[j] }

  lemma {:induction false} DistinctFits(s: seq<Cell>, t: set<Cell>)
    requires Distinct(s) && forall i :: 0 <= i < |s| ==> s[i] in t
    ensures |s| <= |t|
  {
    if s == [] {
    } else {
      var n := |s| - 1;
      DistinctFits(s[..n], t - {s[n]});
    }
  }

  // ---- Cell sets in arrays ----

  /** The flags of the grid's cells are exactly those of `s`. */
  ghost predicate Marks(a: seq<bool>, g: Grid, s: set<Cell>) {
    && |a| == MAX_BLOCKS && Within(g, s)
    && forall c :: g.Has(c) && g.Index(c) < MAX_BLOCKS ==> (a[g.Index(c)] <==> c in s)
  }

  lemma MarkOne(a: seq<bool>, g: Grid, s: set<Cell>, c: Cell)
    requires g.Valid() && Marks(a, g, s) && g.Has(c)
    ensures g.Index(c) < MAX_BLOCKS && Marks(a[g.Index(c) := true], g, s + {c})
  {
    IndexBound(g, c);
    var b := a[g.Index(c) := true];
    forall d | g.Has(d) && g.Index(d) < MAX_BLOCKS ensures b[g.Index(d)] <==> d in s + {c} {
      if g.Index(d) == g.Index(c) {
        IndexInjective(g, c, d);
      }
    }
  }

  // ---- Flood fill ----

  /** The state of one fill: `found` so far, `popped` off the stack, and `settled`, those of them
      whose neighbours have all been offered. */
  ghost predicate Filling(fired: set<Cell>, before: set<Cell>, seed: Cell, found: set<Cell>, popped: set<Cell>,
                          settled: set<Cell>, stack: seq<Cell>)
  {
    && seed in found && found <= fired && found !! before && settled <= popped <= found
    && Distinct(stack) && (forall c :: c in stack <==> c in found && c !in popped)
    && (forall c :: c in found ==> Reaches(fired, seed, c))
    && (forall c, d :: c in settled && d in fired && Adjacent(c, d) ==> d in found)
  }

  lemma FillStart(fired: set<Cell>, before: set<Cell>, seed: Cell)
    requires seed in fired && seed !in before
    ensures Filling(fired, before, seed, {seed}, {}, {}, [seed])
  {
    ReachesSelf(fired, seed);
  }

  lemma FillPop(fired: set<Cell>, before: set<Cell>, seed: Cell, found: set<Cell>, popped: set<Cell>,
                stack: seq<Cell>)
    requires Filling(fired, before, seed, found, popped, popped, stack) && stack != []
    ensures var c := stack[|stack| - 1];
            && c in found && c !in popped
            && Filling(fired, before, seed, found, popped + {c}, popped, stack[..|stack| - 1])
  {
    hide Reaches, Adjacent;
    var n := |stack| - 1;
    var c, rest := stack[n], stack[..n];
    assert c in stack;
    forall d ensures d in rest <==> d in found && d !in popped + {c} {
      if d in rest {
        assert d in stack;
        var i :| 0 <= i < n && rest[i] == d;
        assert stack[i] != stack[n];
      }
      if d in found && d !in popped + {c} {
        assert d in stack;
        var i :| 0 <= i < |stack| && stack[i] == d;
        assert rest[i] == d;
      }
    }
  }

  /** A fired, unvisited neighbour of a found cell is new, and there is room for it. */
  lemma FillPush(g: Grid, fired: set<Cell>, before: set<Cell>, seed: Cell, found: set<Cell>, popped: set<Cell>,
                 settled: set<Cell>, stack: seq<Cell>, c: Cell, d: Cell)
    requires g.Valid() && Within(g, fired) && Filling(fired, before, seed, found, popped, settled, stack)
    requires c in found && Adjacent(c, d) && d in fired && d !in before && d !in found
    ensures |stack| < MAX_BLOCKS
    ensures Filling(fired, before, seed, found + {d}, popped, settled, stack + [d])
  {
    ReachesNext(fired, seed, c, d);
    hide Reaches, Adjacent;
    FiredFits(g, fired);
    DistinctFits(stack, found);
    SubsetSize(found + {d}, fired);
  }

  /** Found cells have no neighbour in an earlier blob. */
  lemma FoundApart(fired: set<Cell>, before: set<Cell>, c: Cell, d: Cell)
    requires Closed(fired, before) && c in fired && c !in before && d in before && before <= fired
    ensures !Adjacent(c, d)
  {
    assert Adjacent(c, d) ==> Adjacent(d, c);
  }

  lemma FillSettle(fired: set<Cell>, before: set<Cell>, seed: Cell, found: set<Cell>, popped: set<Cell>,
                   settled: set<Cell>, stack: seq<Cell>, c: Cell)
    requires Filling(fired, before, seed, found, popped, settled, stack) && popped == settled + {c}
    requires forall d :: d in fired && Adjacent(c, d) ==> d in found
    ensures Filling(fired, before, seed, found, popped, popped, stack)
  {
    hide Reaches, Adjacent, Distinct;
  }

  lemma FillDone(fired: set<Cell>, before: set<Cell>, seed: Cell, found: set<Cell>, popped: set<Cell>)
    requires Filling(fired, before, seed, found, popped, popped, [])
    ensures popped == found && IsComponent(fired, seed, found) && Closed(fired, found)
  {
    forall c ensures c in popped <==> c in found {
      assert c !in [];
    }
    assert Closed(fired, found) by {
      hide Reaches, Adjacent;
      assert popped == found;
    }
    forall c | Reaches(fired, seed, c) ensures c in found {
      ReachStays(fired, found, seed, c);
    }
  }

  /** The four neighbours as the source lists them, each with its bounds check. Coordinates are u8
      with a wrapping subtraction. */
  function Neighbours(g: Grid, c: Cell): (n: seq<(Cell, bool)>)
    requires g.Valid() && g.Has(c)
    ensures |n| == 4
  {
    [(Cell((c.x - 1) % 0x100, c.y), c.x > 0), (Cell(c.x + 1, c.y), c.x + 1 < g.cols),
     (Cell(c.x, (c.y - 1) % 0x100), c.y > 0), (Cell(c.x, c.y + 1), c.y + 1 < g.rows)]
  }

  /** The ones in bounds are exactly the cell's neighbours in the grid. */
  lemma NeighboursExact(g: Grid, c: Cell)
    requires g.Valid() && g.Has(c)
    ensures forall k :: 0 <= k < 4 && Neighbours(g, c)[k].1 ==>
              g.Has(Neighbours(g, c)[k].0) && Adjacent(c, Neighbours(g, c)[k].0)
    ensures forall d :: g.Has(d) && Adjacent(c, d) ==> (d, true) in Neighbours(g, c)
  {
    var n := Neighbours(g, c);
    assert c.x > 0 ==> n[0].0 == Cell(c.x - 1, c.y);
    assert c.y > 0 ==> n[2].0 == Cell(c.x, c.y - 1);
    forall d | g.Has(d) && Adjacent(c, d) ensures (d, true) in n {
      assert n[0] == (d, true) || n[1] == (d, true) || n[2] == (d, true) || n[3] == (d, true);
    }
  }

  method MarkAt(visited: array<bool>, g: Grid, ghost s: set<Cell>, c: Cell)
    requires g.Valid() && g.Has(c) && Marks(visited[..], g, s)
    modifies visited
    ensures Marks(visited[..], g, s + {c})
  {
    MarkOne(visited[..], g, s, c);
    ghost var marked := visited[..][g.Index(c) := true];
    hide Marks;
    MarksLength(visited[..], g, s);
    visited[g.Index(c)] := true;
    assert visited[..] == marked;
  }

  lemma MarksLength(a: seq<bool>, g: Grid, s: set<Cell>)
    requires Marks(a, g, s)
    ensures |a| == MAX_BLOCKS && Within(g, s)
  {
  }

  /** What a flag says. */
  lemma MarkRead(a: seq<bool>, g: Grid, s: set<Cell>, c: Cell)
    requires g.Valid() && g.Has(c) && Marks(a, g, s)
    ensures |a| == MAX_BLOCKS && g.Index(c) < MAX_BLOCKS && (a[g.Index(c)] <==> c in s)
  {
    IndexBound(g, c);
  }

  lemma CountFits(g: Grid, s: set<Cell>, c: Cell)
    requires g.Valid() && Within(g, s + {c}) && c !in s
    ensures SumX(s + {c}) == SumX(s) + c.x <= 4096 && SumY(s + {c}) == SumY(s) + c.y <= 4096
    ensures |s + {c}| == |s| + 1 <= MAX_BLOCKS
  {
    SumXAdd(s, c);
    SumYAdd(s, c);
    SumsFit(g, s + {c});
    FiredFits(g, s + {c});
  }

  /** One cell added to the running sums: the u16 additions never overflow. */
  method Count(g: Grid, blob: Blob, c: Cell, ghost s: set<Cell>) returns (blob': Blob)
    requires g.Valid() && Within(g, s + {c}) && c !in s && Summarizes(blob, s)
    ensures Summarizes(blob', s + {c})
  {
    CountFits(g, s, c);
    hide SumX, SumY, Within;
    blob' := Blob(blob.sumX + c.x, blob.sumY + c.y, blob.cellCount + 1);
  }

  /** The neighbour loop: every fired neighbour of `c` is found afterwards, and every push that is
      attempted has room. */
  method Spread(filtered: array<bool>, visited: array<bool>, g: Grid, c: Cell, stack: seq<Cell>,
                ghost fired: set<Cell>, ghost before: set<Cell>, ghost seed: Cell, ghost found: set<Cell>,
                ghost popped: set<Cell>, ghost settled: set<Cell>)
    returns (stack': seq<Cell>, ghost found': set<Cell>)
    requires g.Valid() && filtered != visited
    requires Marks(filtered[..], g, fired) && Marks(visited[..], g, before + found)
    requires before <= fired && Closed(fired, before)
    requires Filling(fired, before, seed, found, popped, settled, stack) && c in found
    modifies visited
    ensures Filling(fired, before, seed, found', popped, settled, stack')
    ensures Marks(visited[..], g, before + found')
    ensures forall d :: d in fired && Adjacent(c, d) ==> d in found'
  {
    MarksLength(filtered[..], g, fired);
    FoundFacts(fired, before, seed, found, popped, settled, stack);
    assert g.Has(c);
    NeighboursExact(g, c);
    var neighbours := Neighbours(g, c);
    hide Filling, Marks, Closed, Neighbours, Adjacent;
    stack', found' := stack, found;
    for k := 0 to 4
      invariant Filling(fired, before, seed, found', popped, settled, stack') && found <= found'
      invariant Marks(filtered[..], g, fired) && Marks(visited[..], g, before + found')
      invariant forall j :: 0 <= j < k && neighbours[j].1 && neighbours[j].0 in fired ==> neighbours[j].0 in found'
    {
      var (n, inBounds) := neighbours[k];
      if inBounds {
        MarkRead(filtered[..], g, fired, n);
        MarkRead(visited[..], g, before + found', n);
        FoundFacts(fired, before, seed, found', popped, settled, stack');
        var i := g.Index(n);
        if n in before {
          FoundApart(fired, before, c, n);
        }
        if filtered[i] && !visited[i] {
          FillPush(g, fired, before, seed, found', popped, settled, stack', c, n);
          MarkAt(visited, g, before + found', n);
          assert before + found' + {n} == before + (found' + {n});
          if |stack'| < MAX_BLOCKS {
            stack' := stack' + [n];
          }
          found' := found' + {n};
        }
      }
    }
    forall d | d in fired && Adjacent(c, d) ensures d in found' {
      WithinHas(g, fired, d);
      assert (d, true) in neighbours;
    }
  }

  lemma WithinHas(g: Grid, s: set<Cell>, c: Cell)
    requires Within(g, s) && c in s
    ensures g.Has(c)
  {
  }

  lemma FoundFacts(fired: set<Cell>, before: set<Cell>, seed: Cell, found: set<Cell>, popped: set<Cell>,
                   settled: set<Cell>, stack: seq<Cell>)
    requires Filling(fired, before, seed, found, popped, settled, stack)
    ensures seed in found && found <= fired && found !! before && popped <= found
  {
  }

  lemma Fewer(s: set<Cell>, t: set<Cell>, c: Cell)
    requires c in s && c !in t
    ensures |s - (t + {c})| < |s - t|
  {
    assert s - t == (s - (t + {c})) + {c};
  }

  lemma NothingCounted()
    ensures Summarizes(Blob(0, 0, 0), {})
  {
  }

  /** One fill, from an unvisited fired cell: marks and sums up exactly that cell's component. */
  method Flood(filtered: array<bool>, visited: array<bool>, g: Grid, seed: Cell, ghost fired: set<Cell>,
               ghost before: set<Cell>)
    returns (blob: Blob, ghost found: set<Cell>)
    requires g.Valid() && filtered != visited && Marks(filtered[..], g, fired) && Marks(visited[..], g, before)
    requires seed in fired && seed !in before && before <= fired && Closed(fired, before)
    modifies visited
    ensures IsComponent(fired, seed, found) && Closed(fired, found) && found !! before
    ensures Marks(visited[..], g, before + found) && Summarizes(blob, found)
  {
    MarksLength(filtered[..], g, fired);
    WithinHas(g, fired, seed);
    hide IsComponent, Closed, Filling, Marks, Within, Summarizes, Adjacent;
    var stack := [seed];
    MarkAt(visited, g, before, seed);
    found := {seed};
    FillStart(fired, before, seed);
    blob := Blob(0, 0, 0);
    NothingCounted();
    ghost var popped: set<Cell> := {};
    while stack != []
      invariant Filling(fired, before, seed, found, popped, popped, stack)
      invariant Marks(filtered[..], g, fired) && Marks(visited[..], g, before + found)
      invariant Summarizes(blob, popped)
      decreases |fired - popped|
    {
      var c := stack[|stack| - 1];
      FillPop(fired, before, seed, found, popped, stack);
      FoundFacts(fired, before, seed, found, popped, popped, stack);
      Fewer(fired, popped, c);
      WithinPart(g, fired, popped + {c});
      stack := stack[..|stack| - 1];
      blob := Count(g, blob, c, popped);
      ghost var settled := popped;
      popped := popped + {c};
      stack, found := Spread(filtered, visited, g, c, stack, fired, before, seed, found, popped, settled);
      FillSettle(fired, before, seed, found, popped, settled, stack, c);
    }
    FoundFacts(fired, before, seed, found, popped, popped, stack);
    FillDone(fired, before, seed, found, popped);
  }

  lemma WithinPart(g: Grid, s: set<Cell>, t: set<Cell>)
    requires Within(g, s) && t <= s
    ensures Within(g, t)
  {
  }

  // ---- Labelling ----

  /** The fired cells of a filtered grid. */
  ghost function Fired(a: seq<bool>, g: Grid): set<Cell>
    requires |a| == MAX_BLOCKS
  {
    set x: nat, y: nat | x < g.cols && y < g.rows && g.Index(Cell(x, y)) < MAX_BLOCKS && a[g.Index(Cell(x, y))]
      :: Cell(x, y)
  }

  ghost predicate Components(fired: set<Cell>, seeds: seq<Cell>, parts: seq<set<Cell>>) {
    |seeds| == |parts| && forall k :: 0 <= k < |parts| ==> IsComponent(fired, seeds[k], parts[k])
  }

  ghost predicate Summaries(parts: seq<set<Cell>>, blobs: seq<Blob>) {
    |blobs| == |parts| && forall k :: 0 <= k < |parts| ==> Summarizes(blobs[k], parts[k])
  }

  ghost predicate Covered(parts: seq<set<Cell>>, c: Cell) { exists k :: 0 <= k < |parts| && c in parts[k] }

  /** The parts are disjoint and make up `done`. */
  ghost predicate Partition(done: set<Cell>, parts: seq<set<Cell>>) {
    && (forall c :: c in done ==> Covered(parts, c))
    && (forall k :: 0 <= k < |parts| ==> parts[k] <= done)
    && (forall j, k :: 0 <= j < k < |parts| ==> parts[j] !! parts[k])
  }

  /** Each seed is the first cell of its part, and the seeds come in row-major order. */
  ghost predicate FirstCells(g: Grid, seeds: seq<Cell>, parts: seq<set<Cell>>) {
    && |seeds| == |parts|
    && (forall j, k :: 0 <= j < k < |seeds| ==> g.Index(seeds[j]) < g.Index(seeds[k]))
    && (forall k, c :: 0 <= k < |parts| && c in parts[k] ==> g.Index(seeds[k]) <= g.Index(c))
  }

  /** `parts` are the connected components of the cells in `done`, each with its summary, in the
      order of their first cells, which are `seeds`. */
  ghost predicate Labelled(g: Grid, fired: set<Cell>, done: set<Cell>, seeds: seq<Cell>, parts: seq<set<Cell>>,
                           blobs: seq<Blob>)
  {
    Components(fired, seeds, parts) && Summaries(parts, blobs) && Partition(done, parts) && FirstCells(g, seeds, parts)
  }

  /** Every fired cell before row-major position `pos` is in a part, and every seed comes before it. */
  ghost predicate ScannedTo(g: Grid, fired: set<Cell>, done: set<Cell>, seeds: seq<Cell>, pos: nat) {
    && (forall c :: c in fired && g.Index(c) < pos ==> c in done)
    && forall k :: 0 <= k < |seeds| ==> g.Index(seeds[k]) < pos
  }

  lemma AddPart(g: Grid, fired: set<Cell>, done: set<Cell>, seeds: seq<Cell>, parts: seq<set<Cell>>,
                blobs: seq<Blob>, seed: Cell, part: set<Cell>, blob: Blob)
    requires Labelled(g, fired, done, seeds, parts, blobs) && ScannedTo(g, fired, done, seeds, g.Index(seed))
    requires IsComponent(fired, seed, part) && Summarizes(blob, part) && part !! done && part <= fired
    ensures Labelled(g, fired, done + part, seeds + [seed], parts + [part], blobs + [blob])
  {
    hide IsComponent, Summarizes, Partition;
    AddCells(done, parts, part);
    forall c | c in part ensures g.Index(seed) <= g.Index(c) {
      assert c in fired && c !in done;
    }
  }

  lemma AddCells(done: set<Cell>, parts: seq<set<Cell>>, part: set<Cell>)
    requires Partition(done, parts) && part !! done
    ensures Partition(done + part, parts + [part])
  {
    var all := parts + [part];
    forall c | c in done + part ensures Covered(all, c) {
      if c in part {
        assert c in all[|parts|];
      } else {
        assert Covered(parts, c);
        var k :| 0 <= k < |parts| && c in parts[k];
        assert c in all[k];
      }
    }
  }

  lemma NothingScanned(g: Grid, fired: set<Cell>)
    ensures ScannedTo(g, fired, {}, [], 0)
  {
  }

  lemma ScanOn(g: Grid, fired: set<Cell>, done: set<Cell>, seeds: seq<Cell>, at: Cell)
    requires Within(g, fired) && g.Has(at) && ScannedTo(g, fired, done, seeds, g.Index(at))
    requires at in fired ==> at in done
    ensures ScannedTo(g, fired, done, seeds, g.Index(at) + 1)
  {
    forall c | c in fired && g.Index(c) < g.Index(at) + 1 ensures c in done {
      if g.Index(c) == g.Index(at) {
        IndexInjective(g, c, at);
      }
    }
  }

  lemma ScanFound(g: Grid, fired: set<Cell>, done: set<Cell>, seeds: seq<Cell>, seed: Cell, part: set<Cell>)
    requires Within(g, fired) && g.Has(seed) && seed in part && ScannedTo(g, fired, done, seeds, g.Index(seed))
    ensures ScannedTo(g, fired, done + part, seeds + [seed], g.Index(seed) + 1)
  {
    forall c | c in fired && g.Index(c) < g.Index(seed) + 1 ensures c in done + part {
      if g.Index(c) == g.Index(seed) {
        IndexInjective(g, c, seed);
      }
    }
  }

  /** There are never more parts than cells in them. */
  lemma {:induction false} PartsFit(parts: seq<set<Cell>>, done: set<Cell>)
    requires forall k :: 0 <= k < |parts| ==> parts[k] != {} && parts[k] <= done
    requires forall j, k :: 0 <= j < k < |parts| ==> parts[j] !! parts[k]
    ensures |parts| <= |done|
  {
    if parts == [] {
    } else {
      var n := |parts| - 1;
      PartsFit(parts[..n], done - parts[n]);
      SubsetSize((done - parts[n]) + parts[n], done);
      assert |parts[n]| >= 1;
    }
  }

  lemma PartsNonempty(fired: set<Cell>, seeds: seq<Cell>, parts: seq<set<Cell>>, k: nat)
    requires Components(fired, seeds, parts) && k < |parts|
    ensures parts[k] != {}
  {
    hide Reaches;
    assert IsComponent(fired, seeds[k], parts[k]);
    assert seeds[k] in parts[k];
  }

  lemma RoomForBlob(g: Grid, fired: set<Cell>, done: set<Cell>, seeds: seq<Cell>, parts: seq<set<Cell>>,
                    blobs: seq<Blob>, seed: Cell)
    requires g.Valid() && Within(g, fired) && Labelled(g, fired, done, seeds, parts, blobs)
    requires done <= fired && seed in fired && seed !in done
    ensures |blobs| < MAX_BLOCKS
  {
    hide IsComponent, Summarizes, Covered, FirstCells, Components;
    forall k | 0 <= k < |parts| ensures parts[k] != {} {
      PartsNonempty(fired, seeds, parts, k);
    }
    PartsFit(parts, done);
    SubsetSize(done + {seed}, fired);
    FiredFits(g, fired);
  }

  lemma ClosedUnion(fired: set<Cell>, s: set<Cell>, t: set<Cell>)
    requires Closed(fired, s) && Closed(fired, t)
    ensures Closed(fired, s + t)
  {
  }

  lemma FiredMarks(a: seq<bool>, g: Grid)
    requires g.Valid() && |a| == MAX_BLOCKS
    ensures Marks(a, g, Fired(a, g))
  {
    forall c | g.Has(c) && g.Index(c) < MAX_BLOCKS ensures a[g.Index(c)] <==> c in Fired(a, g) {
      assert c == Cell(c.x, c.y);
    }
  }

  lemma NoneMarked(a: seq<bool>, g: Grid)
    requires |a| == MAX_BLOCKS && forall i :: 0 <= i < MAX_BLOCKS ==> !a[i]
    ensures Marks(a, g, {})
  {
  }

  /** The scan has reached row-major position `pos`. */
  ghost predicate Progress(filtered: seq<bool>, visited: seq<bool>, g: Grid, fired: set<Cell>, done: set<Cell>,
                           seeds: seq<Cell>, parts: seq<set<Cell>>, blobs: seq<Blob>, pos: nat)
  {
    && Marks(filtered, g, fired) && Marks(visited, g, done) && done <= fired && Closed(fired, done)
    && Labelled(g, fired, done, seeds, parts, blobs) && ScannedTo(g, fired, done, seeds, pos)
  }

  lemma ProgressStart(filtered: seq<bool>, visited: seq<bool>, g: Grid)
    requires g.Valid() && |filtered| == |visited| == MAX_BLOCKS && forall i :: 0 <= i < MAX_BLOCKS ==> !visited[i]
    ensures Progress(filtered, visited, g, Fired(filtered, g), {}, [], [], [], 0)
  {
    FiredMarks(filtered, g);
    NoneMarked(visited, g);
    hide Fired, Marks;
  }

  lemma ProgressEnd(filtered: seq<bool>, visited: seq<bool>, g: Grid, fired: set<Cell>, done: set<Cell>,
                    seeds: seq<Cell>, parts: seq<set<Cell>>, blobs: seq<Blob>)
    requires Progress(filtered, visited, g, fired, done, seeds, parts, blobs, g.rows * g.cols)
    ensures Labelled(g, fired, fired, seeds, parts, blobs)
  {
    hide Marks, Closed, Labelled, ScannedTo;
    MarksLength(filtered, g, fired);
    AllScanned(g, fired, done, seeds);
  }

  lemma ProgressBlob(filtered: seq<bool>, visited: seq<bool>, visited': seq<bool>, g: Grid, fired: set<Cell>,
                     done: set<Cell>, seeds: seq<Cell>, parts: seq<set<Cell>>, blobs: seq<Blob>, seed: Cell,
                     part: set<Cell>, blob: Blob)
    requires g.Valid() && g.Has(seed) && seed in fired && seed !in done
    requires Progress(filtered, visited, g, fired, done, seeds, parts, blobs, g.Index(seed))
    requires IsComponent(fired, seed, part) && Closed(fired, part) && part !! done
    requires Marks(visited', g, done + part) && Summarizes(blob, part)
    ensures |blobs| < MAX_BLOCKS
    ensures Progress(filtered, visited', g, fired, done + part, seeds + [seed], parts + [part], blobs + [blob],
                     g.Index(seed) + 1)
  {
    ComponentParts(fired, seed, part);
    hide IsComponent, Marks, Closed, Labelled, ScannedTo, Summarizes, Within;
    MarksLength(filtered, g, fired);
    RoomForBlob(g, fired, done, seeds, parts, blobs, seed);
    AddPart(g, fired, done, seeds, parts, blobs, seed, part, blob);
    ScanFound(g, fired, done, seeds, seed, part);
    ClosedUnion(fired, done, part);
  }

  lemma ProgressSkip(filtered: seq<bool>, visited: seq<bool>, g: Grid, fired: set<Cell>, done: set<Cell>,
                     seeds: seq<Cell>, parts: seq<set<Cell>>, blobs: seq<Blob>, at: Cell)
    requires g.Has(at) && Progress(filtered, visited, g, fired, done, seeds, parts, blobs, g.Index(at))
    requires at in fired ==> at in done
    ensures Progress(filtered, visited, g, fired, done, seeds, parts, blobs, g.Index(at) + 1)
  {
    hide Marks, Closed, Labelled, ScannedTo, Within;
    MarksLength(filtered, g, fired);
    ScanOn(g, fired, done, seeds, at);
  }

  /** The body of the two scanning loops: skip the cell, or fill and record its component. */
  method LabelAt(filtered: array<bool>, visited: array<bool>, g: Grid, seed: Cell, blobs: seq<Blob>,
                 ghost fired: set<Cell>, ghost done: set<Cell>, ghost seeds: seq<Cell>, ghost parts: seq<set<Cell>>)
    returns (blobs': seq<Blob>, ghost done': set<Cell>, ghost seeds': seq<Cell>, ghost parts': seq<set<Cell>>)
    requires g.Valid() && g.Has(seed) && filtered != visited
    requires Progress(filtered[..], visited[..], g, fired, done, seeds, parts, blobs, g.Index(seed))
    modifies visited
    ensures Progress(filtered[..], visited[..], g, fired, done', seeds', parts', blobs', g.Index(seed) + 1)
  {
    hide IsComponent, Marks, Closed, Labelled, ScannedTo, Summarizes, Within;
    MarkRead(filtered[..], g, fired, seed);
    MarkRead(visited[..], g, done, seed);
    blobs', done', seeds', parts' := blobs, done, seeds, parts;
    if !filtered[g.Index(seed)] || visited[g.Index(seed)] {
      ProgressSkip(filtered[..], visited[..], g, fired, done, seeds, parts, blobs, seed);
    } else {
      ghost var part;
      ghost var was := visited[..];
      var blob;
      blob, part := Flood(filtered, visited, g, seed, fired, done);
      ProgressBlob(filtered[..], was, visited[..], g, fired, done, seeds, parts, blobs, seed, part, blob);
      if |blobs| < MAX_BLOCKS {
        blobs' := blobs + [blob];
      }
      done', seeds', parts' := done + part, seeds + [seed], parts + [part];
    }
  }

  /** For every grid the blobs are the summaries of its connected components, one each, in the
      row-major order of their first cells. No push is dropped and no sum overflows. */
  method LabelBlobs(filtered: array<bool>, blocksX: U16, blocksY: U16)
    returns (blobs: seq<Blob>, ghost seeds: seq<Cell>, ghost parts: seq<set<Cell>>)
    requires filtered.Length == MAX_BLOCKS && blocksX <= MAX_BLOCKS_X && blocksY <= MAX_BLOCKS_Y
    ensures var g := Grid(blocksX, blocksY);
            var fired := Fired(filtered[..], g);
            Labelled(g, fired, fired, seeds, parts, blobs)
  {
    hide Progress, Labelled, Fired;
    var g := Grid(blocksX, blocksY);
    ghost var fired := Fired(filtered[..], g);
    var visited := new bool[MAX_BLOCKS](_ => false);
    ghost var done: set<Cell> := {};
    blobs, seeds, parts := [], [], [];
    ProgressStart(filtered[..], visited[..], g);
    for sy := 0 to g.rows
      invariant Progress(filtered[..], visited[..], g, fired, done, seeds, parts, blobs, sy * g.cols)
    {
      for sx := 0 to g.cols
        invariant Progress(filtered[..], visited[..], g, fired, done, seeds, parts, blobs, sy * g.cols + sx)
      {
        blobs, done, seeds, parts :=
          LabelAt(filtered, visited, g, Cell(sx, sy), blobs, fired, done, seeds, parts);
      }
      NextRow(g.cols, sy);
    }
    ProgressEnd(filtered[..], visited[..], g, fired, done, seeds, parts, blobs);
  }

  lemma ComponentParts(fired: set<Cell>, seed: Cell, part: set<Cell>)
    requires IsComponent(fired, seed, part)
    ensures seed in part && part <= fired
  {
  }

  lemma AllScanned(g: Grid, fired: set<Cell>, done: set<Cell>, seeds: seq<Cell>)
    requires Within(g, fired) && done <= fired && ScannedTo(g, fired, done, seeds, g.rows * g.cols)
    ensures done == fired
  {
    forall c | c in fired ensures c in done {
      RowsApart(g.cols, c.y, g.rows);
    }
  }

  // ---- What follows ----

  lemma ComponentIff(fired: set<Cell>, seed: Cell, part: set<Cell>, c: Cell)
    requires IsComponent(fired, seed, part)
    ensures c in part <==> Reaches(fired, seed, c)
  {
    hide Reaches;
  }

  lemma ReachesOn(fired: set<Cell>, s: Cell, a: Cell, b: Cell)
    requires Reaches(fired, s, a) && Reaches(fired, a, b)
    ensures Reaches(fired, s, b)
  {
    var p :| Joins(fired, p, a, b);
    OnAlong(fired, s, p, a, b);
  }

  ghost predicate Together(parts: seq<set<Cell>>, a: Cell, b: Cell) {
    exists k :: 0 <= k < |parts| && a in parts[k] && b in parts[k]
  }

  /** Two fired cells are in one blob if and only if a walk over fired cells joins them. */
  lemma SameBlobIff(g: Grid, fired: set<Cell>, seeds: seq<Cell>, parts: seq<set<Cell>>, blobs: seq<Blob>,
                    a: Cell, b: Cell)
    requires Labelled(g, fired, fired, seeds, parts, blobs) && a in fired && b in fired
    ensures Together(parts, a, b) <==> Reaches(fired, a, b)
  {
    hide Reaches, IsComponent, Summaries, FirstCells;
    if Together(parts, a, b) {
      var k :| 0 <= k < |parts| && a in parts[k] && b in parts[k];
      ComponentIff(fired, seeds[k], parts[k], a);
      ComponentIff(fired, seeds[k], parts[k], b);
      ReachesEachOther(fired, seeds[k], a, b);
    }
    if Reaches(fired, a, b) {
      assert Covered(parts, a);
      var k :| 0 <= k < |parts| && a in parts[k];
      ComponentIff(fired, seeds[k], parts[k], a);
      ReachesOn(fired, seeds[k], a, b);
      ComponentIff(fired, seeds[k], parts[k], b);
    }
  }

  function TotalCells(blobs: seq<Blob>): nat {
    if blobs == [] then 0 else TotalCells(blobs[..|blobs| - 1]) + blobs[|blobs| - 1].cellCount
  }

  ghost function UnionOf(parts: seq<set<Cell>>): set<Cell> {
    if parts == [] then {} else UnionOf(parts[..|parts| - 1]) + parts[|parts| - 1]
  }

  lemma {:induction false} InUnion(parts: seq<set<Cell>>, c: Cell)
    ensures c in UnionOf(parts) <==> Covered(parts, c)
  {
    if parts == [] {
    } else {
      var n := |parts| - 1;
      InUnion(parts[..n], c);
      if Covered(parts, c) {
        var k :| 0 <= k < |parts| && c in parts[k];
        assert k < n ==> c in parts[..n][k];
      }
      if Covered(parts[..n], c) {
        var k :| 0 <= k < n && c in parts[..n][k];
        assert c in parts[k];
      }
    }
  }

  lemma {:induction false} TotalOfParts(parts: seq<set<Cell>>, blobs: seq<Blob>)
    requires Summaries(parts, blobs)
    requires forall j, k :: 0 <= j < k < |parts| ==> parts[j] !! parts[k]
    ensures TotalCells(blobs) == |UnionOf(parts)|
  {
    if parts == [] {
    } else {
      var n := |parts| - 1;
      TotalOfParts(parts[..n], blobs[..n]);
      forall c | c in UnionOf(parts[..n]) ensures c !in parts[n] {
        InUnion(parts[..n], c);
        var k :| 0 <= k < n && c in parts[..n][k];
        assert parts[k] !! parts[n];
      }
      assert UnionOf(parts[..n]) !! parts[n];
      assert Summarizes(blobs[n], parts[n]);
    }
  }

  lemma UnionIsAll(done: set<Cell>, parts: seq<set<Cell>>)
    requires Partition(done, parts)
    ensures UnionOf(parts) == done
  {
    forall c ensures c in UnionOf(parts) <==> c in done {
      InUnion(parts, c);
      if Covered(parts, c) {
        var k :| 0 <= k < |parts| && c in parts[k];
        assert parts[k] <= done;
      }
    }
  }

  /** No fired cell is lost or counted twice. */
  lemma CellsConserved(g: Grid, fired: set<Cell>, seeds: seq<Cell>, parts: seq<set<Cell>>, blobs: seq<Blob>)
    requires Labelled(g, fired, fired, seeds, parts, blobs)
    ensures TotalCells(blobs) == |fired|
  {
    UnionIsAll(fired, parts);
    hide Components, FirstCells, Summaries, Covered, UnionOf, TotalCells;
    TotalOfParts(parts, blobs);
  }

  // ---- One result ----

  lemma {:induction false} SameFirsts(g: Grid, s: seq<Cell>, t: seq<Cell>)
    requires forall j, k :: 0 <= j < k < |s| ==> g.Index(s[j]) < g.Index(s[k])
    requires forall j, k :: 0 <= j < k < |t| ==> g.Index(t[j]) < g.Index(t[k])
    requires forall c :: c in s <==> c in t
    ensures s == t
  {
    EmptyIff(s, t);
    if s == [] {
    } else {
      assert s[0] in t && t[0] in s;
      FirstIsLeast(g, s, t[0]);
      FirstIsLeast(g, t, s[0]);
      forall c ensures c in s[1..] <==> c in t[1..] {
        SameTail(g, s, t, c);
        SameTail(g, t, s, c);
      }
      SameFirsts(g, s[1..], t[1..]);
      assert s == [s[0]] + s[1..] && t == [t[0]] + t[1..];
    }
  }

  lemma EmptyIff(s: seq<Cell>, t: seq<Cell>)
    requires forall c :: c in s <==> c in t
    ensures s == [] <==> t == []
  {
    if s != [] {
      assert s[0] in t;
    }
    if t != [] {
      assert t[0] in s;
    }
  }

  /** The first of an increasing sequence is not above any member, and equals it only as itself. */
  lemma FirstIsLeast(g: Grid, s: seq<Cell>, c: Cell)
    requires forall j, k :: 0 <= j < k < |s| ==> g.Index(s[j]) < g.Index(s[k])
    requires c in s
    ensures g.Index(s[0]) <= g.Index(c) && (g.Index(s[0]) == g.Index(c) ==> c == s[0])
  {
    var i :| 0 <= i < |s| && s[i] == c;
    if i > 0 {
      assert g.Index(s[0]) < g.Index(s[i]);
    }
  }

  lemma SameTail(g: Grid, s: seq<Cell>, t: seq<Cell>, c: Cell)
    requires forall j, k :: 0 <= j < k < |s| ==> g.Index(s[j]) < g.Index(s[k])
    requires (forall d :: d in s ==> d in t) && s != [] && t != [] && s[0] == t[0]
    ensures c in s[1..] ==> c in t[1..]
  {
    if c in s[1..] {
      var i :| 0 <= i < |s| - 1 && s[1..][i] == c;
      assert s[i + 1] == c && g.Index(s[0]) < g.Index(s[i + 1]);
      assert c in t && c != t[0];
      var j :| 0 <= j < |t| && t[j] == c;
      assert t[1..][j - 1] == c;
    }
  }

  /** A cell comes first among all the cells it reaches. */
  ghost predicate IsFirst(g: Grid, fired: set<Cell>, c: Cell) {
    c in fired && forall d :: Reaches(fired, c, d) ==> g.Index(c) <= g.Index(d)
  }

  lemma SeedIffFirst(g: Grid, fired: set<Cell>, seeds: seq<Cell>, parts: seq<set<Cell>>, blobs: seq<Blob>, c: Cell)
    requires Within(g, fired) && Labelled(g, fired, fired, seeds, parts, blobs)
    ensures c in seeds <==> IsFirst(g, fired, c)
  {
    hide Reaches, Summaries;
    if c in seeds {
      var k :| 0 <= k < |seeds| && seeds[k] == c;
      assert IsComponent(fired, seeds[k], parts[k]);
      forall d | Reaches(fired, c, d) ensures g.Index(c) <= g.Index(d) {
        assert d in parts[k];
      }
    }
    if IsFirst(g, fired, c) {
      assert Covered(parts, c);
      var k :| 0 <= k < |parts| && c in parts[k];
      assert IsComponent(fired, seeds[k], parts[k]) && seeds[k] in parts[k];
      ReachesEachOther(fired, seeds[k], c, seeds[k]);
      assert g.Index(c) <= g.Index(seeds[k]) && g.Index(seeds[k]) <= g.Index(c);
      IndexInjective(g, c, seeds[k]);
    }
  }

  /** The order of neighbours on the stack and the order of pops leave no trace: a labelling is a
      function of the fired cells. */
  lemma LabellingUnique(g: Grid, fired: set<Cell>, seeds: seq<Cell>, parts: seq<set<Cell>>, blobs: seq<Blob>,
                        seeds': seq<Cell>, parts': seq<set<Cell>>, blobs': seq<Blob>)
    requires Within(g, fired)
    requires Labelled(g, fired, fired, seeds, parts, blobs) && Labelled(g, fired, fired, seeds', parts', blobs')
    ensures seeds == seeds' && parts == parts' && blobs == blobs'
  {
    hide Partition;
    forall c ensures c in seeds <==> c in seeds' {
      SeedIffFirst(g, fired, seeds, parts, blobs, c);
      SeedIffFirst(g, fired, seeds', parts', blobs', c);
    }
    SameFirsts(g, seeds, seeds');
    forall k | 0 <= k < |parts| ensures parts[k] == parts'[k] && blobs[k] == blobs'[k] {
      assert IsComponent(fired, seeds[k], parts[k]) && IsComponent(fired, seeds[k], parts'[k]);
      SameComponent(fired, seeds[k], parts[k], parts'[k]);
      assert Summarizes(blobs[k], parts[k]) && Summarizes(blobs'[k], parts[k]);
    }
  }

  lemma SameComponent(fired: set<Cell>, seed: Cell, s: set<Cell>, t: set<Cell>)
    requires IsComponent(fired, seed, s) && IsComponent(fired, seed, t)
    ensures s == t
  {
    hide Reaches;
  }
}
