/** Properties of the object count on whole images (qcsfr5.py). */
module FloodFillExamples {
  import opened FloodFill

  /** The objects of an image partition its bright cells: two different
      objects share no cell, and every bright cell lies in one. */
  lemma ComponentsPartition(g: Grid)
    ensures forall x, y :: x in Components(g) && y in Components(g) && x != y ==> x !! y
    ensures forall c :: Bright(g, c) ==> c in Cells(g) && Component(g, c) in Components(g) && c in Component(g, c)
  {
    forall x, y | x in Components(g) && y in Components(g) && x != y
      ensures x !! y
    {
      var a :| a in Cells(g) && Bright(g, a) && x == Component(g, a);
      var b :| b in Cells(g) && Bright(g, b) && y == Component(g, b);
      forall c | c in x && c in y
        ensures false
      {
        SameComponent(g, a, c);
        SameComponent(g, b, c);
      }
    }
    forall c | Bright(g, c)
      ensures c in Cells(g) && Component(g, c) in Components(g) && c in Component(g, c)
    {
      CellsMembership(g, c);
      ConnectedRefl(g, c);
    }
  }

  /** The image of the source's own example: a 2x2 block in the top left
      corner and a single bright cell in the opposite corner. */
  function ExampleGrid(): Grid
  {
    Grid([[1.0, 1.0, 0.0], [1.0, 1.0, 0.0], [0.0, 0.0, 1.0]], 3, 3, 0.5)
  }

  /** The example holds two objects; the diagonal contact between (1, 1)
      and (2, 2) does not join them. */
  lemma ExampleHasTwoObjects()
    ensures |Components(ExampleGrid())| == 2
    ensures !Connected(ExampleGrid(), (1, 1), (2, 2))
  {
    var g := ExampleGrid();
    var a: set<Cell> := {(0, 0), (0, 1), (1, 0), (1, 1)};
    var b: set<Cell> := {(2, 2)};
    ExampleBlock();
    ExampleCorner();
    ConnectedRefl(g, (0, 0));
    ConnectedRefl(g, (2, 2));
    assert Component(g, (0, 0)) in Components(g);
    assert Component(g, (2, 2)) in Components(g);
    forall x | x in Components(g)
      ensures x == a || x == b
    {
      var c :| c in Cells(g) && Bright(g, c) && x == Component(g, c);
      CellsMembership(g, c);
      if c in a {
        SameComponent(g, (0, 0), c);
      } else {
        assert c == (2, 2);
      }
    }
    assert Components(g) == {a, b};
    assert (2, 2) !in a;
    assert a != b;
    SameComponent(g, (0, 0), (1, 1));
    CellsMembership(g, (2, 2));
    assert (2, 2) !in Component(g, (1, 1));
  }

  lemma ExampleBlock()
    ensures Component(ExampleGrid(), (0, 0)) == {(0, 0), (0, 1), (1, 0), (1, 1)}
  {
    var g := ExampleGrid();
    var a: set<Cell> := {(0, 0), (0, 1), (1, 0), (1, 1)};
    forall d | d in a
      ensures Expanded(g, d, a)
    {
    }
    ClosedHoldsComponent(g, (0, 0), a, {});
    ConnectedRefl(g, (0, 0));
    ConnectedStep(g, (0, 0), (0, 0), (0, 1));
    ConnectedStep(g, (0, 0), (0, 0), (1, 0));
    ConnectedStep(g, (0, 0), (0, 1), (1, 1));
    CellsMembership(g, (0, 1));
    CellsMembership(g, (1, 0));
    CellsMembership(g, (1, 1));
  }

  lemma ExampleCorner()
    ensures Component(ExampleGrid(), (2, 2)) == {(2, 2)}
  {
    var g := ExampleGrid();
    forall d | d in {(2, 2)}
      ensures Expanded(g, d, {(2, 2)})
    {
    }
    ClosedHoldsComponent(g, (2, 2), {(2, 2)}, {});
    ConnectedRefl(g, (2, 2));
  }

  /** In an image bright everywhere, the first row is one walk from (0, 0). */
  lemma {:induction false} AlongFirstRow(g: Grid, y: int)
    requires forall c :: InBounds(g, c) ==> Bright(g, c)
    requires 0 < g.height && 0 <= y < g.width
    ensures Connected(g, (0, 0), (0, y))
  {
    if y == 0 {
      ConnectedRefl(g, (0, 0));
    } else {
      AlongFirstRow(g, y - 1);
      ConnectedStep(g, (0, 0), (0, y - 1), (0, y));
    }
  }

  lemma {:induction false} DownColumn(g: Grid, x: int, y: int)
    requires forall c :: InBounds(g, c) ==> Bright(g, c)
    requires 0 <= x < g.height && 0 <= y < g.width
    ensures Connected(g, (0, 0), (x, y))
  {
    if x == 0 {
      AlongFirstRow(g, y);
    } else {
      DownColumn(g, x - 1, y);
      ConnectedStep(g, (0, 0), (x - 1, y), (x, y));
    }
  }

  /** An image bright everywhere, with at least one cell, is one object. */
  lemma AllBrightIsOneObject(g: Grid)
    requires forall c :: InBounds(g, c) ==> Bright(g, c)
    requires 0 < g.height && 0 < g.width
    ensures Components(g) == {Cells(g)}
  {
    var s := (0, 0);
    forall c | c in Cells(g)
      ensures c in Component(g, s)
    {
      CellsMembership(g, c);
      DownColumn(g, c.0, c.1);
    }
    assert Component(g, s) == Cells(g);
    CellsMembership(g, s);
    forall x | x in Components(g)
      ensures x == Cells(g)
    {
      var c :| c in Cells(g) && Bright(g, c) && x == Component(g, c);
      SameComponent(g, s, c);
    }
    assert Component(g, s) in Components(g);
  }

  /** An image with no bright cell holds no object. */
  lemma DarkImageHasNoObject(g: Grid)
    requires forall c :: !Bright(g, c)
    ensures Components(g) == {}
  {
  }
}
