/**
 * The tile grid (WorldGrid): tile-type storage, coordinate arithmetic, and the
 * window-shaped neighbour query that the influence fields are built from.
 */
module Grid {

  /** The kind of terrain a grid square holds (GridType). */
  datatype TileType = InvalidType | Field | Forest | Lake | Mountain | Occupied

  /** An integer grid coordinate (Vector2Int). */
  datatype Point = Point(x: int, y: int)

  function Abs(n: int): nat
  {
    if n < 0 then -n else n
  }

  /** No value occurs twice in s. */
  predicate Distinct<T(==)>(s: seq<T>)
  {
    forall a, b :: 0 <= a < b < |s| ==> s[a] != s[b]
  }

  /** Every value of s is an index below n. */
  predicate InRange(s: seq<int>, n: int)
  {
    forall j :: 0 <= j < |s| ==> 0 <= s[j] < n
  }

  /** The values of s strictly increase. */
  predicate Ascending(s: seq<int>)
  {
    forall a, b :: 0 <= a < b < |s| ==> s[a] < s[b]
  }

  /** p lies in the square window of half-width radius around c. */
  predicate InWindow(c: Point, radius: int, p: Point)
  {
    Abs(p.x - c.x) <= radius && Abs(p.y - c.y) <= radius
  }

  /**
   * Premise: for a positive radius, w holds k exactly when k's point p lies
   * in the window's x range and y range and is not the centre c; for any
   * other radius, w is empty. Conclusion: w holds k exactly when k is not
   * the centre's index and p is in the window.
   */
  lemma WindowChoice(w: seq<int>, c: Point, p: Point, radius: int, k: int, index: int)
    requires p == c <==> k == index
    requires radius > 0 ==>
               (k in w <==> c.x - radius <= p.x < c.x + radius + 1 && Abs(p.y - c.y) <= radius && p != c)
    requires radius <= 0 ==> w == []
    ensures k in w <==> k != index && InWindow(c, radius, p)
  {
  }

  /**
   * The dimensions of a grid. A point's x is bounded by rows and its y by
   * columns, and the linear index of (x, y) is x + y * rows. Tile positions
   * follow the default layout, in which the tile at index i stands at
   * (i % rows, i / rows).
   */
  datatype Layout = Layout(rows: nat, columns: nat) {

    function Size(): nat
    {
      rows * columns
    }

    /** p is a coordinate of the grid: x below rows and y below columns, neither negative. */
    predicate IsValidPoint(p: Point)
    {
      !(p.x < 0 || p.y < 0) && !(p.x >= rows || p.y >= columns)
    }

    /** The linear index of p, with stride rows; a valid point's index is a tile of the grid. */
    function GetGridIndexFromPoint(p: Point): (r: int)
      ensures IsValidPoint(p) ==> 0 <= r < Size()
    {
      assert IsValidPoint(p) ==> 0 <= p.x + p.y * rows < Size() by {
        if IsValidPoint(p) {
          StrideBound(p.x, p.y, rows, columns);
        }
      }
      p.x + p.y * rows
    }

    /** The coordinate of the tile stored at index (the default layout). */
    function GetPointFromIndex(index: int): (r: Point)
      requires 0 <= index < Size()
      ensures IsValidPoint(r)
    {
      assert index / rows < columns by {
        if index / rows >= columns {
          MulMonotone(columns, index / rows, rows);
        }
      }
      Point(index % rows, index / rows)
    }

    /** A valid point's index maps back to the point. */
    lemma PointIndexRoundTrip(p: Point)
      requires IsValidPoint(p)
      ensures 0 <= GetGridIndexFromPoint(p) < Size()
      ensures GetPointFromIndex(GetGridIndexFromPoint(p)) == p
    {
      DivModUnique(p.x + p.y * rows, rows, p.y, p.x);
    }

    /** Every tile's point is valid, and its index is the tile's own. */
    lemma IndexPointRoundTrip(index: int)
      requires 0 <= index < Size()
      ensures IsValidPoint(GetPointFromIndex(index))
      ensures GetGridIndexFromPoint(GetPointFromIndex(index)) == index
    {
    }

    /** GetPointFromIndex tells tiles apart. */
    lemma PointFromIndexInjective(i: int, j: int)
      requires 0 <= i < Size() && 0 <= j < Size()
      requires GetPointFromIndex(i) == GetPointFromIndex(j)
      ensures i == j
    {
      IndexPointRoundTrip(i);
      IndexPointRoundTrip(j);
    }

    /**
     * The contribution of window point (i, j) to GetNeighbors: nothing for
     * the centre c or an invalid point, otherwise the point's index.
     */
    function Cell(c: Point, i: int, j: int): (r: seq<int>)
      ensures forall k :: k in r ==> 0 <= k < Size()
    {
      if i == c.x && j == c.y then []
      else if IsValidPoint(Point(i, j)) then
        PointIndexRoundTrip(Point(i, j));
        [GetGridIndexFromPoint(Point(i, j))]
      else []
    }

    /** The inner loop of GetNeighbors: column i of the window, y from lo up to hi - 1. */
    function RowScan(c: Point, i: int, lo: int, hi: int): (r: seq<int>)
      ensures forall k :: k in r ==> 0 <= k < Size()
      decreases hi - lo
    {
      if hi <= lo then [] else RowScan(c, i, lo, hi - 1) + Cell(c, i, hi - 1)
    }

    /** The outer loop of GetNeighbors: x from lo up to hi - 1, each over the window's full y range. */
    function WindowScan(c: Point, radius: int, lo: int, hi: int): (r: seq<int>)
      ensures forall k :: k in r ==> 0 <= k < Size()
      decreases hi - lo
    {
      if hi <= lo then []
      else WindowScan(c, radius, lo, hi - 1) + RowScan(c, hi - 1, c.y - radius, c.y + radius + 1)
    }

    /** The list GetNeighbors(radius, index) returns, in the order it builds it. */
    function Neighbors(radius: int, index: int): (r: seq<int>)
      requires 0 <= index < Size()
      ensures forall k :: k in r ==> 0 <= k < Size()
    {
      if radius <= 0 then []
      else
        var c := GetPointFromIndex(index);
        WindowScan(c, radius, c.x - radius, c.x + radius + 1)
    }

    lemma NeighborsInRange(radius: int, index: int)
      requires 0 <= index < Size()
      ensures InRange(Neighbors(radius, index), Size())
    {
      var r := Neighbors(radius, index);
      assert forall j :: 0 <= j < |r| ==> r[j] in r;
    }

    lemma CellMembership(c: Point, i: int, j: int, k: int)
      ensures k in Cell(c, i, j) <==>
                0 <= k < Size() && GetPointFromIndex(k) == Point(i, j) && Point(i, j) != c
    {
      if 0 <= k < Size() {
        IndexPointRoundTrip(k);
      }
      if IsValidPoint(Point(i, j)) {
        PointIndexRoundTrip(Point(i, j));
      }
    }

    lemma {:induction false} RowScanMembership(c: Point, i: int, lo: int, hi: int, k: int)
      ensures k in RowScan(c, i, lo, hi) <==>
                0 <= k < Size() && GetPointFromIndex(k).x == i &&
                lo <= GetPointFromIndex(k).y < hi && GetPointFromIndex(k) != c
      decreases hi - lo
    {
      if hi > lo {
        RowScanMembership(c, i, lo, hi - 1, k);
        CellMembership(c, i, hi - 1, k);
      }
    }

    lemma {:induction false} WindowScanMembership(c: Point, radius: int, lo: int, hi: int, k: int)
      ensures k in WindowScan(c, radius, lo, hi) <==>
                0 <= k < Size() && lo <= GetPointFromIndex(k).x < hi &&
                Abs(GetPointFromIndex(k).y - c.y) <= radius && GetPointFromIndex(k) != c
      decreases hi - lo
    {
      if hi > lo {
        WindowScanMembership(c, radius, lo, hi - 1, k);
        RowScanMembership(c, hi - 1, c.y - radius, c.y + radius + 1, k);
      }
    }

    /** Neighbors is empty without a radius and the window scan around the centre's point otherwise. */
    lemma NeighborsUnfold(radius: int, index: int)
      requires 0 <= index < Size()
      ensures radius <= 0 ==> Neighbors(radius, index) == []
      ensures radius > 0 ==>
                var c := GetPointFromIndex(index);
                Neighbors(radius, index) == WindowScan(c, radius, c.x - radius, c.x + radius + 1)
    {
    }

    /** NeighborsMembership for a k that is a tile of the grid. */
    lemma NeighborsMembershipTile(radius: int, index: int, k: int)
      requires 0 <= index < Size() && 0 <= k < Size()
      ensures k in Neighbors(radius, index) <==>
                k != index && InWindow(GetPointFromIndex(index), radius, GetPointFromIndex(k))
    {
      var c, p := GetPointFromIndex(index), GetPointFromIndex(k);
      if radius > 0 {
        WindowScanMembership(c, radius, c.x - radius, c.x + radius + 1, k);
      }
      if p == c {
        PointFromIndexInjective(k, index);
      }
      NeighborsUnfold(radius, index);
      WindowChoice(Neighbors(radius, index), c, p, radius, k, index);
    }

    /**
     * GetNeighbors(radius, index) holds exactly the tiles, other than the
     * centre itself, whose points lie in the window of half-width radius
     * around the centre's point.
     */
    lemma NeighborsMembership(radius: int, index: int, k: int)
      requires 0 <= index < Size()
      ensures k in Neighbors(radius, index) <==>
                0 <= k < Size() && k != index &&
                InWindow(GetPointFromIndex(index), radius, GetPointFromIndex(k))
    {
      if 0 <= k < Size() {
        NeighborsMembershipTile(radius, index, k);
      }
    }

    lemma {:induction false} RowScanDistinct(c: Point, i: int, lo: int, hi: int)
      ensures Distinct(RowScan(c, i, lo, hi))
      decreases hi - lo
    {
      if hi > lo {
        var front, last := RowScan(c, i, lo, hi - 1), Cell(c, i, hi - 1);
        RowScanDistinct(c, i, lo, hi - 1);
        forall k | k in front
          ensures k !in last
        {
          RowScanMembership(c, i, lo, hi - 1, k);
          CellMembership(c, i, hi - 1, k);
        }
        DistinctConcat(front, last);
      }
    }

    lemma {:induction false} WindowScanDistinct(c: Point, radius: int, lo: int, hi: int)
      ensures Distinct(WindowScan(c, radius, lo, hi))
      decreases hi - lo
    {
      if hi > lo {
        var front := WindowScan(c, radius, lo, hi - 1);
        var row := RowScan(c, hi - 1, c.y - radius, c.y + radius + 1);
        WindowScanDistinct(c, radius, lo, hi - 1);
        RowScanDistinct(c, hi - 1, c.y - radius, c.y + radius + 1);
        forall k | k in front
          ensures k !in row
        {
          WindowScanMembership(c, radius, lo, hi - 1, k);
          RowScanMembership(c, hi - 1, c.y - radius, c.y + radius + 1, k);
        }
        DistinctConcat(front, row);
      }
    }

    /** GetNeighbors never lists a tile twice. */
    lemma NeighborsDistinct(radius: int, index: int)
      requires 0 <= index < Size()
      ensures Distinct(Neighbors(radius, index))
    {
      if radius > 0 {
        var c := GetPointFromIndex(index);
        WindowScanDistinct(c, radius, c.x - radius, c.x + radius + 1);
      }
    }

    lemma {:induction false} RowScanLength(c: Point, i: int, lo: int, hi: int)
      requires lo <= hi
      ensures |RowScan(c, i, lo, hi)| <= hi - lo - (if i == c.x && lo <= c.y < hi then 1 else 0)
      decreases hi - lo
    {
      if hi > lo {
        RowScanLength(c, i, lo, hi - 1);
      }
    }

    lemma {:induction false} WindowScanLength(c: Point, radius: int, lo: int, hi: int)
      requires lo <= hi && 0 <= radius
      ensures |WindowScan(c, radius, lo, hi)| <=
                (hi - lo) * (2 * radius + 1) - (if lo <= c.x < hi then 1 else 0)
      decreases hi - lo
    {
      if hi > lo {
        WindowScanLength(c, radius, lo, hi - 1);
        RowScanLength(c, hi - 1, c.y - radius, c.y + radius + 1);
        assert (hi - lo) * (2 * radius + 1) == (hi - 1 - lo) * (2 * radius + 1) + (2 * radius + 1);
      }
    }

    /**
     * GetNeighbors is empty for a radius of zero or less, and otherwise has
     * at most (2 radius + 1)^2 - 1 entries: the window less its centre.
     */
    lemma NeighborsLength(radius: int, index: int)
      requires 0 <= index < Size()
      ensures radius <= 0 ==> Neighbors(radius, index) == []
      ensures radius > 0 ==> |Neighbors(radius, index)| <= (2 * radius + 1) * (2 * radius + 1) - 1
    {
      if radius > 0 {
        var c := GetPointFromIndex(index);
        WindowScanLength(c, radius, c.x - radius, c.x + radius + 1);
      }
    }
  }

  lemma MulMonotone(a: int, b: int, n: nat)
    requires a <= b
    ensures a * n <= b * n
  {
    assert b * n - a * n == (b - a) * n;
  }

  /** With stride rows, x below rows and y below columns stay below rows * columns. */
  lemma StrideBound(x: int, y: int, rows: nat, columns: nat)
    requires 0 <= x < rows && 0 <= y < columns
    ensures 0 <= x + y * rows < rows * columns
  {
    MulMonotone(y, columns - 1, rows);
    assert (columns - 1) * rows + rows == columns * rows;
  }

  /** The Euclidean quotient and remainder of k by n are the unique q, r with k == q * n + r. */
  lemma DivModUnique(k: int, n: nat, q: int, r: int)
    requires 0 <= r < n && k == q * n + r
    ensures k / n == q && k % n == r
  {
    var q', r' := k / n, k % n;
    assert k == q' * n + r';
    assert (q - q') * n == r' - r;
    if q > q' {
      MulMonotone(1, q - q', n);
      assert false;
    } else if q < q' {
      MulMonotone(1, q' - q, n);
      assert false;
    }
  }

  lemma DistinctConcat<T>(a: seq<T>, b: seq<T>)
    requires Distinct(a) && Distinct(b)
    requires forall x :: x in a ==> x !in b
    ensures Distinct(a + b)
  {
    forall i, j | 0 <= i < j < |a + b|
      ensures (a + b)[i] != (a + b)[j]
    {
      if j >= |a| && i < |a| {
        assert a[i] in a && b[j - |a|] in b;
      }
    }
  }

  /** The multiplicity of x in a sequence without repetitions is one if it occurs and zero if not. */
  lemma {:induction false} DistinctMultiplicity<T>(s: seq<T>, x: T)
    requires Distinct(s)
    ensures multiset(s)[x] == if x in s then 1 else 0
  {
    if s != [] {
      var front := s[..|s| - 1];
      assert s == front + [s[|s| - 1]];
      assert Distinct(front);
      DistinctMultiplicity(front, x);
      if x == s[|s| - 1] {
        assert x !in front by {
          forall j | 0 <= j < |front| ensures front[j] != x {
            assert s[j] != s[|s| - 1];
          }
        }
      }
    }
  }

  /** The list GetGridIndicesFromType(t) returns: the indices of tiles of type t, in scan order. */
  function IndicesOfType(tiles: seq<TileType>, t: TileType): seq<nat>
  {
    if tiles == [] then []
    else IndicesOfType(tiles[..|tiles| - 1], t) + (if tiles[|tiles| - 1] == t then [|tiles| - 1] else [])
  }

  /** GetGridIndicesFromType(t) lists exactly the tiles of type t. */
  lemma {:induction false} IndicesOfTypeMembership(tiles: seq<TileType>, t: TileType, k: int)
    ensures k in IndicesOfType(tiles, t) <==> 0 <= k < |tiles| && tiles[k] == t
  {
    if tiles != [] {
      IndicesOfTypeMembership(tiles[..|tiles| - 1], t, k);
    }
  }

  /** GetGridIndicesFromType(t) lists its indices in strictly ascending order. */
  lemma {:induction false} IndicesOfTypeAscending(tiles: seq<TileType>, t: TileType)
    ensures Ascending(IndicesOfType(tiles, t))
  {
    if tiles != [] {
      var front := IndicesOfType(tiles[..|tiles| - 1], t);
      IndicesOfTypeAscending(tiles[..|tiles| - 1], t);
      assert forall a :: 0 <= a < |front| ==> front[a] < |tiles| - 1 by {
        forall a | 0 <= a < |front| ensures front[a] < |tiles| - 1 {
          assert front[a] in front;
          IndicesOfTypeMembership(tiles[..|tiles| - 1], t, front[a]);
        }
      }
      var r := IndicesOfType(tiles, t);
      var tail: seq<nat> := if tiles[|tiles| - 1] == t then [|tiles| - 1] else [];
      assert r == front + tail;
      forall a, b | 0 <= a < b < |r| ensures r[a] < r[b] {
        if b >= |front| {
          assert r[b] == |tiles| - 1 && r[a] == front[a];
        } else {
          assert r[a] == front[a] && r[b] == front[b];
        }
      }
    }
  }

  lemma IndicesOfTypeDistinct(tiles: seq<TileType>, t: TileType)
    ensures Distinct(IndicesOfType(tiles, t))
  {
    IndicesOfTypeAscending(tiles, t);
  }

  lemma IndicesOfTypeInRange(tiles: seq<TileType>, t: TileType)
    ensures InRange(IndicesOfType(tiles, t), |tiles|)
  {
    var r := IndicesOfType(tiles, t);
    forall j | 0 <= j < |r| ensures 0 <= r[j] < |tiles| {
      assert r[j] in r;
      IndicesOfTypeMembership(tiles, t, r[j]);
    }
  }

  /** The grid: a fixed layout and one tile type per index. */
  class WorldGrid {
    const layout: Layout
    const tiles: array<TileType>

    predicate Valid()
    {
      tiles.Length == layout.Size()
    }

    /** A fresh grid in the default layout; every square starts as FIELD, GridType's default. */
    constructor Default(layout: Layout)
      ensures Valid() && this.layout == layout && fresh(tiles)
      ensures forall k :: 0 <= k < tiles.Length ==> tiles[k] == Field
    {
      this.layout := layout;
      tiles := new TileType[layout.Size()](_ => Field);
    }

    /** A grid whose squares are given, applied verbatim. */
    constructor Load(layout: Layout, squares: seq<TileType>)
      requires |squares| == layout.Size()
      ensures Valid() && this.layout == layout && fresh(tiles)
      ensures tiles[..] == squares
    {
      this.layout := layout;
      tiles := new TileType[|squares|](k requires 0 <= k < |squares| => squares[k]);
    }

    /** The type of one square: the type whose index scan lists this square. */
    function GetTileType(index: int): (r: TileType)
      reads tiles
      requires 0 <= index < tiles.Length
      ensures index in IndicesOfType(tiles[..], r)
    {
      IndicesOfTypeMembership(tiles[..], tiles[index], index);
      tiles[index]
    }

    /** Sets the type of one square; every other square keeps its type. */
    method PlaceGridTileAtIndex(t: TileType, index: int)
      requires 0 <= index < tiles.Length
      modifies tiles
      ensures tiles[..] == old(tiles[..])[index := t]
      ensures GetTileType(index) == t
      ensures forall k :: 0 <= k < tiles.Length && k != index ==> GetTileType(k) == old(GetTileType(k))
    {
      tiles[index] := t;
    }

    method GetGridIndicesFromType(t: TileType) returns (result: seq<nat>)
      ensures result == IndicesOfType(tiles[..], t)
      ensures forall k: int :: k in result <==> 0 <= k < tiles.Length && tiles[k] == t
      ensures Ascending(result)
    {
      result := [];
      for i := 0 to tiles.Length
        invariant result == IndicesOfType(tiles[..i], t)
      {
        assert tiles[..i + 1][..i] == tiles[..i];
        if tiles[i] == t {
          result := result + [i];
        }
      }
      assert tiles[..tiles.Length] == tiles[..];
      forall k: int
        ensures k in result <==> 0 <= k < tiles.Length && tiles[k] == t
      {
        IndicesOfTypeMembership(tiles[..], t, k);
      }
      IndicesOfTypeAscending(tiles[..], t);
    }

    method GetNeighbors(radius: int, index: int) returns (result: seq<int>)
      requires Valid() && 0 <= index < tiles.Length
      ensures result == layout.Neighbors(radius, index)
    {
      result := [];
      if radius <= 0 {
        return;
      }
      var point := layout.GetPointFromIndex(index);
      for i := point.x - radius to point.x + radius + 1
        invariant result == layout.WindowScan(point, radius, point.x - radius, i)
      {
        for j := point.y - radius to point.y + radius + 1
          invariant result == layout.WindowScan(point, radius, point.x - radius, i)
                              + layout.RowScan(point, i, point.y - radius, j)
        {
          var newPoint := Point(i, j);
          if i == point.x && j == point.y {
            continue;
          }
          if layout.IsValidPoint(newPoint) {
            result := result + [layout.GetGridIndexFromPoint(newPoint)];
          }
        }
      }
    }
  }
}
