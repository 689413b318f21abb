/** Object counting by flood fill over an intensity image (qcsfr5.py).

    The labeller scans the image in row-major order; every cell brighter
    than the threshold that no earlier expansion has reached starts a FIFO
    breadth-first expansion over the four orthogonal neighbours, and adds one
    to the count.  The answer is the number of 4-connected components of
    above-threshold cells.
 */
module FloodFill {

  /** A coordinate (row, column), the source's (x, y) tuples. */
  type Cell = (int, int)

  /** The labeller's four inputs.  The image is only ever read. */
  datatype Grid = Grid(image: seq<seq<real>>, width: int, height: int, threshold: real)

  /** The four orthogonal offsets, in the order the expansion tries them. */
  const Offsets: seq<Cell> := [(0, 1), (1, 0), (-1, 0), (0, -1)]

  function Neighbor(c: Cell, k: nat): Cell
    requires k < |Offsets|
  {
    (c.0 + Offsets[k].0, c.1 + Offsets[k].1)
  }

  /** Orthogonal adjacency: the cells differ by one in exactly one coordinate. */
  predicate Adjacent(a: Cell, b: Cell)
  {
    (a.0 == b.0 && (a.1 - b.1 == 1 || b.1 - a.1 == 1)) ||
    (a.1 == b.1 && (a.0 - b.0 == 1 || b.0 - a.0 == 1))
  }

  /** When there are columns to scan, every row the scan can reach exists
      and is at least `width` long; otherwise the source's indexing raises.
      With no columns the scan never reads the image. */
  predicate Covers(image: seq<seq<real>>, width: int, height: int)
  {
    width > 0 ==> forall i :: 0 <= i < height ==> i < |image| && width <= |image[i]|
  }

  lemma CoversRow(image: seq<seq<real>>, width: int, height: int, i: int)
    requires Covers(image, width, height)
    ensures width > 0 && 0 <= i < height ==> i < |image| && width <= |image[i]|
  {
  }

  predicate InBounds(g: Grid, c: Cell)
  {
    0 <= c.0 < g.height && 0 <= c.1 < g.width
  }

  /** A cell that belongs to some object: in bounds and strictly above the threshold. */
  predicate Bright(g: Grid, c: Cell)
  {
    InBounds(g, c) && c.0 < |g.image| && c.1 < |g.image[c.0]| && g.image[c.0][c.1] > g.threshold
  }

  ghost function Cells(g: Grid): set<Cell>
  {
    set x: int, y: int | 0 <= x < g.height && 0 <= y < g.width :: (x, y)
  }

  /** A walk through bright cells, each step to an orthogonal neighbour. */
  ghost predicate IsPath(g: Grid, p: seq<Cell>)
  {
    |p| > 0 &&
    (forall i :: 0 <= i < |p| ==> Bright(g, p[i])) &&
    (forall i, j :: 0 <= i && j == i + 1 && j < |p| ==> Adjacent(p[i], p[j]))
  }

  ghost predicate Connected(g: Grid, a: Cell, b: Cell)
  {
    exists p {:trigger IsPath(g, p)} :: IsPath(g, p) && p[0] == a && p[|p| - 1] == b
  }

  /** The object containing `s`: every cell a bright walk from `s` reaches. */
  ghost function Component(g: Grid, s: Cell): set<Cell>
  {
    set c {:trigger Connected(g, s, c)} | c in Cells(g) && Connected(g, s, c)
  }

  /** The objects of the image, one set of cells per 4-connected component. */
  ghost function Components(g: Grid): set<set<Cell>>
  {
    set c | c in Cells(g) && Bright(g, c) :: Component(g, c)
  }

  /** Every bright neighbour of `c` already belongs to `r`. */
  ghost predicate Expanded(g: Grid, c: Cell, r: set<Cell>)
  {
    forall k :: 0 <= k < |Offsets| && Bright(g, Neighbor(c, k)) ==> Neighbor(c, k) in r
  }

  // ---------------------------------------------------------------------------
  // Adjacency and connectivity

  /** Adjacency is exactly the four offsets the expansion tries; a diagonal
      step is none of them. */
  lemma AdjacentIsOffset(a: Cell, b: Cell)
    ensures Adjacent(a, b) <==> exists k :: 0 <= k < |Offsets| && b == Neighbor(a, k)
    ensures !Adjacent(a, (a.0 + 1, a.1 + 1)) && !Adjacent(a, (a.0 + 1, a.1 - 1))
  {
    if Adjacent(a, b) {
      if a.0 == b.0 && b.1 - a.1 == 1 {
        assert b == Neighbor(a, 0);
      } else if a.1 == b.1 && b.0 - a.0 == 1 {
        assert b == Neighbor(a, 1);
      } else if a.1 == b.1 && a.0 - b.0 == 1 {
        assert b == Neighbor(a, 2);
      } else {
        assert b == Neighbor(a, 3);
      }
    }
  }

  lemma CellsMembership(g: Grid, c: Cell)
    ensures c in Cells(g) <==> InBounds(g, c)
  {
    if InBounds(g, c) {
      var x, y := c.0, c.1;
      assert (x, y) in Cells(g);
    }
  }

  lemma ConnectedBright(g: Grid, a: Cell, b: Cell)
    requires Connected(g, a, b)
    ensures Bright(g, a) && Bright(g, b) && a in Cells(g) && b in Cells(g)
  {
    var p :| IsPath(g, p) && p[0] == a && p[|p| - 1] == b;
    assert Bright(g, p[0]) && Bright(g, p[|p| - 1]);
    CellsMembership(g, a);
    CellsMembership(g, b);
  }

  lemma ConnectedRefl(g: Grid, a: Cell)
    requires Bright(g, a)
    ensures Connected(g, a, a) && a in Component(g, a)
  {
    assert IsPath(g, [a]);
    CellsMembership(g, a);
  }

  /** A walk can be extended by one bright orthogonal neighbour. */
  lemma ConnectedStep(g: Grid, a: Cell, b: Cell, c: Cell)
    requires Connected(g, a, b) && Bright(g, c) && Adjacent(b, c)
    ensures Connected(g, a, c)
  {
    var p :| IsPath(g, p) && p[0] == a && p[|p| - 1] == b;
    var q := p + [c];
    assert IsPath(g, q);
  }

  function Reversed(p: seq<Cell>): (r: seq<Cell>)
    ensures |r| == |p| && forall i :: 0 <= i < |p| ==> r[i] == p[|p| - 1 - i]
  {
    seq(|p|, i requires 0 <= i < |p| => p[|p| - 1 - i])
  }

  lemma ConnectedSym(g: Grid, a: Cell, b: Cell)
    requires Connected(g, a, b)
    ensures Connected(g, b, a)
  {
    var p :| IsPath(g, p) && p[0] == a && p[|p| - 1] == b;
    var q := Reversed(p);
    forall i | 0 < i < |q|
      ensures Adjacent(q[i - 1], q[i])
    {
      assert q[i - 1] == p[|p| - i] && q[i] == p[|p| - 1 - i];
    }
    assert IsPath(g, q);
  }

  lemma ConnectedTrans(g: Grid, a: Cell, b: Cell, c: Cell)
    requires Connected(g, a, b) && Connected(g, b, c)
    ensures Connected(g, a, c)
  {
    var p :| IsPath(g, p) && p[0] == a && p[|p| - 1] == b;
    var q :| IsPath(g, q) && q[0] == b && q[|q| - 1] == c;
    var r := p + q[1..];
    forall i | 0 < i < |r|
      ensures Adjacent(r[i - 1], r[i])
    {
      if i >= |p| {
        assert r[i] == q[i - |p| + 1];
        assert r[i - 1] == q[i - |p|];
      }
    }
    assert r[|r| - 1] == c;
    assert IsPath(g, r);
  }

  /** Two cells of one object define the same object. */
  lemma SameComponent(g: Grid, s: Cell, c: Cell)
    requires c in Component(g, s)
    ensures Component(g, c) == Component(g, s)
  {
    assert Connected(g, s, c);
    ConnectedSym(g, s, c);
    forall d | d in Component(g, c)
      ensures d in Component(g, s)
    {
      ConnectedTrans(g, s, c, d);
    }
    forall d | d in Component(g, s)
      ensures d in Component(g, c)
    {
      ConnectedTrans(g, c, s, d);
    }
  }

  /** A walk whose every cell lies outside `outside` and that starts in `r`
      stays in `r`, when every cell of `r` outside `outside` is expanded. */
  lemma {:induction false} WalkStaysInside(g: Grid, p: seq<Cell>, r: set<Cell>, outside: set<Cell>)
    requires IsPath(g, p) && p[0] in r
    requires forall i :: 0 <= i < |p| ==> p[i] !in outside
    requires forall d :: d in r && d !in outside ==> Expanded(g, d, r)
    ensures p[|p| - 1] in r
  {
    if |p| > 1 {
      var q := p[..|p| - 1];
      assert IsPath(g, q);
      WalkStaysInside(g, q, r, outside);
      var a, b := p[|p| - 2], p[|p| - 1];
      assert Adjacent(a, b);
      AdjacentIsOffset(a, b);
      var k :| 0 <= k < |Offsets| && b == Neighbor(a, k);
      assert Bright(g, b);
    }
  }

  /** A set holding `s`, disjoint from `outside`, and closed under bright
      steps from its cells outside `outside`, holds the whole object of `s`. */
  lemma ClosedHoldsComponent(g: Grid, s: Cell, r: set<Cell>, outside: set<Cell>)
    requires s in r
    requires Component(g, s) !! outside
    requires forall d :: d in r && d !in outside ==> Expanded(g, d, r)
    ensures Component(g, s) <= r
  {
    forall c | c in Component(g, s)
      ensures c in r
    {
      var p :| IsPath(g, p) && p[0] == s && p[|p| - 1] == c;
      forall i | 0 <= i < |p|
        ensures p[i] !in outside
      {
        var q := p[..i + 1];
        assert IsPath(g, q);
        assert Connected(g, s, p[i]);
        ConnectedBright(g, s, p[i]);
      }
      WalkStaysInside(g, p, r, outside);
    }
  }

  // ---------------------------------------------------------------------------
  // The labeller

  /** The bookkeeping of one expansion from `start`: `order` lists the cells
      enqueued so far, each once and each reachable from `start`; the queue
      is the unprocessed tail of `order`; `visited` is the earlier set plus
      `order`. */
  ghost predicate Frontier(g: Grid, start: Cell, visited0: set<Cell>, visited: set<Cell>,
                           queue: seq<Cell>, order: seq<Cell>)
  {
    |order| > 0 && order[0] == start &&
    |queue| <= |order| && queue == order[|order| - |queue|..] &&
    (forall c :: c in visited <==> c in visited0 || c in order) &&
    (forall i :: 0 <= i < |order| ==> Connected(g, start, order[i])) &&
    (forall i, j :: 0 <= i < j < |order| ==> order[i] != order[j])
  }

  /** The first `done` enqueued cells have had their neighbours tried. */
  ghost predicate ExpandedUpTo(g: Grid, order: seq<Cell>, done: nat, visited: set<Cell>)
  {
    done <= |order| && forall i :: 0 <= i < done ==> Expanded(g, order[i], visited)
  }

  lemma Dequeue(g: Grid, start: Cell, visited0: set<Cell>, visited: set<Cell>, queue: seq<Cell>, order: seq<Cell>)
    requires Frontier(g, start, visited0, visited, queue, order) && queue != []
    ensures Frontier(g, start, visited0, visited, queue[1..], order)
    ensures queue[0] == order[|order| - |queue|]
  {
    assert queue[1..] == order[|order| - |queue| + 1..];
  }

  lemma Enqueue(g: Grid, start: Cell, visited0: set<Cell>, visited: set<Cell>, queue: seq<Cell>,
                order: seq<Cell>, c: Cell, n: Cell)
    requires Frontier(g, start, visited0, visited, queue, order)
    requires Connected(g, start, c) && Bright(g, n) && Adjacent(c, n) && n !in visited
    ensures Frontier(g, start, visited0, visited + {n}, queue + [n], order + [n])
    ensures |Cells(g) - (visited + {n})| + 1 == |Cells(g) - visited|
  {
    ConnectedStep(g, start, c, n);
    CellsMembership(g, n);
    assert Cells(g) - visited == (Cells(g) - (visited + {n})) + {n};
    var order' := order + [n];
    assert queue + [n] == order'[|order'| - |queue| - 1..];
    forall i | 0 <= i < |order'|
      ensures Connected(g, start, order'[i])
    {
      if i < |order| { assert order'[i] == order[i]; }
    }
  }

  lemma ExpandedGrows(g: Grid, order: seq<Cell>, order': seq<Cell>, done: nat, v: set<Cell>, v': set<Cell>)
    requires ExpandedUpTo(g, order, done, v)
    requires done <= |order'| && forall i :: 0 <= i < done ==> order'[i] == order[i]
    requires v <= v'
    ensures ExpandedUpTo(g, order', done, v')
  {
  }

  /** The bookkeeping while the neighbours of `c`, the `done`-th enqueued
      cell, are tried: the first `k` of them are settled, and every cell
      newly visited since `before` sits on the queue past `afterPop`. */
  ghost predicate Trying(g: Grid, start: Cell, visited0: set<Cell>, visited: set<Cell>, queue: seq<Cell>,
                         order: seq<Cell>, c: Cell, done: nat, k: int, before: set<Cell>, afterPop: seq<Cell>)
  {
    0 <= k <= |Offsets| &&
    Frontier(g, start, visited0, visited, queue, order) &&
    done < |order| && done + 1 == |order| - |queue| && order[done] == c &&
    ExpandedUpTo(g, order, done, visited) &&
    (forall m :: 0 <= m < k && Bright(g, Neighbor(c, m)) ==> Neighbor(c, m) in visited) &&
    before <= visited && |queue| >= |afterPop| &&
    |Cells(g) - visited| + |queue| == |Cells(g) - before| + |afterPop|
  }

  lemma TryEnqueue(g: Grid, start: Cell, visited0: set<Cell>, visited: set<Cell>, queue: seq<Cell>,
                   order: seq<Cell>, c: Cell, done: nat, k: int, before: set<Cell>, afterPop: seq<Cell>)
    requires Trying(g, start, visited0, visited, queue, order, c, done, k, before, afterPop) && k < |Offsets|
    requires Bright(g, Neighbor(c, k)) && Neighbor(c, k) !in visited
    ensures Trying(g, start, visited0, visited + {Neighbor(c, k)}, queue + [Neighbor(c, k)],
                   order + [Neighbor(c, k)], c, done, k + 1, before, afterPop)
  {
    var n := Neighbor(c, k);
    AdjacentIsOffset(c, n);
    Enqueue(g, start, visited0, visited, queue, order, c, n);
    ExpandedGrows(g, order, order + [n], done, visited, visited + {n});
  }

  lemma TrySkip(g: Grid, start: Cell, visited0: set<Cell>, visited: set<Cell>, queue: seq<Cell>,
                order: seq<Cell>, c: Cell, done: nat, k: int, before: set<Cell>, afterPop: seq<Cell>)
    requires Trying(g, start, visited0, visited, queue, order, c, done, k, before, afterPop) && k < |Offsets|
    requires !Bright(g, Neighbor(c, k)) || Neighbor(c, k) in visited
    ensures Trying(g, start, visited0, visited, queue, order, c, done, k + 1, before, afterPop)
  {
  }

  /** With all four neighbours of `c` tried, `c` is expanded, and either a
      cell was newly visited or the queue is one shorter. */
  lemma TryDone(g: Grid, start: Cell, visited0: set<Cell>, visited: set<Cell>, queue: seq<Cell>,
                order: seq<Cell>, c: Cell, done: nat, before: set<Cell>, afterPop: seq<Cell>)
    requires Trying(g, start, visited0, visited, queue, order, c, done, |Offsets|, before, afterPop)
    ensures Frontier(g, start, visited0, visited, queue, order)
    ensures ExpandedUpTo(g, order, |order| - |queue|, visited)
    ensures |Cells(g) - visited| < |Cells(g) - before| ||
            (|Cells(g) - visited| == |Cells(g) - before| && |queue| == |afterPop|)
  {
    assert Expanded(g, c, visited);
  }

  /** The nested `bfs` of count_objects: FIFO expansion from `start`.  The
      source mutates the enclosing `visited` set; here the new set is returned.
      `order` records every enqueued cell, in enqueue order. */
  method Bfs(g: Grid, start: Cell, visited0: set<Cell>) returns (visited: set<Cell>, ghost order: seq<Cell>)
    requires Covers(g.image, g.width, g.height)
    requires Bright(g, start)
    requires Component(g, start) !! visited0
    ensures visited == visited0 + Component(g, start)
    ensures |order| > 0 && order[0] == start
    ensures forall c :: c in order <==> c in Component(g, start)
    ensures forall i, j :: 0 <= i < j < |order| ==> order[i] != order[j]
    ensures forall i :: 0 <= i < |order| ==> Bright(g, order[i])
  {
    ConnectedRefl(g, start);
    var queue := [start];
    visited := visited0 + {start};
    order := [start];
    while queue != []
      invariant Frontier(g, start, visited0, visited, queue, order)
      invariant ExpandedUpTo(g, order, |order| - |queue|, visited)
      decreases |Cells(g) - visited|, |queue|
    {
      ghost var done := |order| - |queue|;
      ghost var before := visited;
      Dequeue(g, start, visited0, visited, queue, order);
      var c := queue[0];
      queue := queue[1..];
      ghost var afterPop := queue;
      for k := 0 to 4
        invariant Trying(g, start, visited0, visited, queue, order, c, done, k, before, afterPop)
      {
        var n := (c.0 + Offsets[k].0, c.1 + Offsets[k].1);
        CoversRow(g.image, g.width, g.height, n.0);
        if 0 <= n.0 < g.height && 0 <= n.1 < g.width && n !in visited && g.image[n.0][n.1] > g.threshold {
          TryEnqueue(g, start, visited0, visited, queue, order, c, done, k, before, afterPop);
          queue := queue + [n];
          visited := visited + {n};
          order := order + [n];
        } else {
          TrySkip(g, start, visited0, visited, queue, order, c, done, k, before, afterPop);
        }
      }
      TryDone(g, start, visited0, visited, queue, order, c, done, before, afterPop);
    }
    EmptyQueue(g, start, visited0, visited, order);
  }

  /** With the queue empty, every enqueued cell has been expanded, so the
      enqueued cells are exactly the object of `start`. */
  lemma EmptyQueue(g: Grid, start: Cell, visited0: set<Cell>, visited: set<Cell>, order: seq<Cell>)
    requires Frontier(g, start, visited0, visited, [], order)
    requires ExpandedUpTo(g, order, |order|, visited)
    requires Component(g, start) !! visited0
    ensures visited == visited0 + Component(g, start)
    ensures forall c :: c in order <==> c in Component(g, start)
    ensures forall i :: 0 <= i < |order| ==> Bright(g, order[i])
  {
    forall d | d in visited && d !in visited0
      ensures Expanded(g, d, visited)
    {
      var i :| 0 <= i < |order| && order[i] == d;
    }
    ClosedHoldsComponent(g, start, visited, visited0);
    forall i | 0 <= i < |order|
      ensures order[i] in Component(g, start) && Bright(g, order[i])
    {
      ConnectedBright(g, start, order[i]);
    }
  }

  /** The scan's bookkeeping: `found` holds distinct objects of the image,
      one per increment of `count`, and `visited` is exactly their cells. */
  ghost predicate Labelled(g: Grid, found: set<set<Cell>>, visited: set<Cell>, count: int)
  {
    found <= Components(g) && count == |found| &&
    forall c :: c in visited <==> InSome(found, c)
  }

  /** `c` is a cell of one of the sets of `found`. */
  ghost predicate InSome(found: set<set<Cell>>, c: Cell)
  {
    exists s :: s in found && c in s
  }

  /** Every bright cell before (i, j) in row-major order has been reached. */
  ghost predicate ScannedBefore(g: Grid, visited: set<Cell>, i: int, j: int)
  {
    forall c :: Bright(g, c) && (c.0 < i || (c.0 == i && c.1 < j)) ==> c in visited
  }

  /** count_objects: the number of 4-connected objects of above-threshold cells. */
  method CountObjects(image: seq<seq<real>>, width: int, height: int, threshold: real) returns (count: int)
    requires Covers(image, width, height)
    ensures count == |Components(Grid(image, width, height, threshold))|
    ensures 0 <= count <= if width > 0 && height > 0 then width * height else 0
  {
    var g := Grid(image, width, height, threshold);
    var visited: set<Cell> := {};
    count := 0;
    ghost var found: set<set<Cell>> := {};
    var i := 0;
    ScanStart(g);
    while i < height
      invariant RowsScanned(g, found, visited, count, i)
    {
      visited, found, count := ScanRow(g, found, visited, count, i);
      i := i + 1;
    }
    ScanComplete(g, found, visited, count, i);
  }

  /** The state of count_objects before row `i`: the objects met so far are
      labelled, every bright cell of the rows above is reached, and each row
      has added at most its width to the count. */
  ghost predicate RowsScanned(g: Grid, found: set<set<Cell>>, visited: set<Cell>, count: int, i: int)
  {
    0 <= i <= (if g.height > 0 then g.height else 0) &&
    Labelled(g, found, visited, count) && ScannedBefore(g, visited, i, 0) &&
    0 <= count <= i * (if g.width > 0 then g.width else 0)
  }

  lemma ScanStart(g: Grid)
    ensures RowsScanned(g, {}, {}, 0, 0)
  {
  }

  /** One pass of the outer loop of count_objects: the scan of row `i`,
      which adds at most the width of the row to the count. */
  method ScanRow(g: Grid, ghost found: set<set<Cell>>, visited: set<Cell>, count: int, i: int)
    returns (visited': set<Cell>, ghost found': set<set<Cell>>, count': int)
    requires Covers(g.image, g.width, g.height) && i < g.height
    requires RowsScanned(g, found, visited, count, i)
    ensures RowsScanned(g, found', visited', count', i + 1)
  {
    visited', found', count' := ScanColumns(g, found, visited, count, i);
    RowBound(count, count', i, if g.width > 0 then g.width else 0);
  }

  lemma RowBound(count: int, count': int, i: nat, cols: nat)
    requires count <= i * cols && count' <= count + cols
    ensures count' <= (i + 1) * cols
  {
  }

  /** The inner loop of count_objects over row `i`: every unreached bright
      cell of the row starts an expansion and adds one to the count. */
  method ScanColumns(g: Grid, ghost found: set<set<Cell>>, visited: set<Cell>, count: int, i: int)
    returns (visited': set<Cell>, ghost found': set<set<Cell>>, count': int)
    requires Covers(g.image, g.width, g.height) && 0 <= i < g.height
    requires Labelled(g, found, visited, count) && ScannedBefore(g, visited, i, 0)
    ensures Labelled(g, found', visited', count') && ScannedBefore(g, visited', i + 1, 0)
    ensures count <= count' <= count + (if g.width > 0 then g.width else 0)
  {
    visited', found', count' := visited, found, count;
    CoversRow(g.image, g.width, g.height, i);
    var j := 0;
    while j < g.width
      invariant 0 <= j && (g.width >= 0 ==> j <= g.width)
      invariant Labelled(g, found', visited', count') && ScannedBefore(g, visited', i, j)
      invariant count <= count' <= count + j
    {
      if g.image[i][j] > g.threshold && (i, j) !in visited' {
        visited', found' := Label(g, found', visited', count', i, j);
        count' := count' + 1;
      } else {
        SkipCell(g, visited', i, j);
      }
      j := j + 1;
    }
    NextRow(g, visited', i, j);
  }

  /** The body of the scan for an unreached bright cell (i, j): expand from
      it and record the object it belongs to. */
  method Label(g: Grid, ghost found: set<set<Cell>>, visited: set<Cell>, count: int, i: int, j: int)
    returns (visited': set<Cell>, ghost found': set<set<Cell>>)
    requires Covers(g.image, g.width, g.height)
    requires Labelled(g, found, visited, count) && ScannedBefore(g, visited, i, j)
    requires Bright(g, (i, j)) && (i, j) !in visited
    ensures visited' == visited + Component(g, (i, j)) && found' == found + {Component(g, (i, j))}
    ensures Labelled(g, found', visited', count + 1) && ScannedBefore(g, visited', i, j + 1)
  {
    FreshSeed(g, found, visited, count, (i, j));
    ghost var order;
    visited', order := Bfs(g, (i, j), visited);
    NewObject(g, found, visited, count, visited', i, j);
    found' := found + {Component(g, (i, j))};
  }

  /** An unreached bright cell starts an object that no earlier expansion
      has touched. */
  lemma FreshSeed(g: Grid, found: set<set<Cell>>, visited: set<Cell>, count: int, seed: Cell)
    requires Labelled(g, found, visited, count)
    requires Bright(g, seed) && seed !in visited
    ensures Component(g, seed) !! visited
  {
    forall c | c in Component(g, seed)
      ensures c !in visited
    {
      if c in visited {
        var s :| s in found && c in s;
        var a :| a in Cells(g) && Bright(g, a) && s == Component(g, a);
        SameComponent(g, a, c);
        SameComponent(g, seed, c);
        ConnectedRefl(g, seed);
      }
    }
  }

  /** Recording the object an expansion from (i, j) reached keeps the
      bookkeeping and moves the scan one cell on. */
  lemma NewObject(g: Grid, found: set<set<Cell>>, visited: set<Cell>, count: int, visited': set<Cell>, i: int, j: int)
    requires Labelled(g, found, visited, count) && ScannedBefore(g, visited, i, j)
    requires Bright(g, (i, j)) && (i, j) !in visited
    requires visited' == visited + Component(g, (i, j))
    ensures Labelled(g, found + {Component(g, (i, j))}, visited', count + 1)
    ensures ScannedBefore(g, visited', i, j + 1)
  {
    var x := Component(g, (i, j));
    ConnectedRefl(g, (i, j));
    NewObjectCounted(g, found, visited, count, (i, j));
    NewObjectCells(found, visited, x);
    assert (i, j) in visited';
  }

  /** A component seeded outside `visited` is a new object of the image. */
  lemma NewObjectCounted(g: Grid, found: set<set<Cell>>, visited: set<Cell>, count: int, seed: Cell)
    requires Labelled(g, found, visited, count)
    requires Bright(g, seed) && seed !in visited && seed in Component(g, seed)
    ensures found + {Component(g, seed)} <= Components(g)
    ensures |found + {Component(g, seed)}| == count + 1
  {
    CellsMembership(g, seed);
    assert Component(g, seed) in Components(g);
  }

  lemma NewObjectCells(found: set<set<Cell>>, visited: set<Cell>, x: set<Cell>)
    requires forall c :: c in visited <==> InSome(found, c)
    ensures forall c :: c in visited + x <==> InSome(found + {x}, c)
  {
    forall c
      ensures c in visited + x <==> InSome(found + {x}, c)
    {
      if c in x {
        assert x in found + {x};
      }
    }
  }

  lemma SkipCell(g: Grid, visited: set<Cell>, i: int, j: int)
    requires ScannedBefore(g, visited, i, j)
    requires !Bright(g, (i, j)) || (i, j) in visited
    ensures ScannedBefore(g, visited, i, j + 1)
  {
  }

  lemma NextRow(g: Grid, visited: set<Cell>, i: int, j: int)
    requires ScannedBefore(g, visited, i, j) && j >= g.width
    ensures ScannedBefore(g, visited, i + 1, 0)
  {
  }

  /** Once every row is scanned, the count is the number of objects, and
      it is bounded by the area because each row adds at most its width. */
  lemma ScanComplete(g: Grid, found: set<set<Cell>>, visited: set<Cell>, count: int, i: int)
    requires RowsScanned(g, found, visited, count, i) && i >= g.height
    ensures count == |Components(g)|
    ensures 0 <= count <= if g.width > 0 && g.height > 0 then g.width * g.height else 0
  {
    AllFound(g, found, visited, count, i);
    AreaBound(count, i, g.width, g.height);
  }

  lemma AreaBound(count: int, i: int, width: int, height: int)
    requires i == (if height > 0 then height else 0)
    requires 0 <= count <= i * (if width > 0 then width else 0)
    ensures count <= if width > 0 && height > 0 then width * height else 0
  {
  }

  /** Once every bright cell has been reached, the objects found are all of them. */
  lemma AllFound(g: Grid, found: set<set<Cell>>, visited: set<Cell>, count: int, i: int)
    requires Labelled(g, found, visited, count) && ScannedBefore(g, visited, i, 0) && i >= g.height
    ensures found == Components(g)
  {
    forall x | x in Components(g)
      ensures x in found
    {
      var c :| c in Cells(g) && Bright(g, c) && x == Component(g, c);
      var s :| s in found && c in s;
      var a :| a in Cells(g) && Bright(g, a) && s == Component(g, a);
      SameComponent(g, a, c);
    }
  }
}
