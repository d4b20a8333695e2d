/** The endless floor of the simulation: a square of `gridSize` by
    `gridSize` tiles of side `tileSize` that follows the robot, always
    centred on the tile the robot stands over. Positions are reals; the
    engine's single-precision rounding is not modelled. */
module Platform {
  import opened Geometry

  const DefaultGridSize := 3
  const DefaultTileSize := 20.0

  /** `Mathf.RoundToInt`: the nearest integer, a tie going to the even
      neighbour. */
  function RoundToInt(r: real): (k: int)
    ensures (k as real) - 0.5 <= r <= (k as real) + 0.5
    ensures r == (k as real) - 0.5 || r == (k as real) + 0.5 ==> k % 2 == 0
  {
    var f := r.Floor;
    var frac := r - f as real;
    if frac < 0.5 then f
    else if frac > 0.5 then f + 1
    else if f % 2 == 0 then f else f + 1
  }

  /** The tile in row `x`, column `z` for a grid whose middle tile is the
      `cx`, `cz` tile of the floor; `gridSize / 2` is integer division. */
  function TilePos(gridSize: nat, tileSize: real, cx: int, cz: int, x: nat, z: nat): Vec3
  {
    Vec3(((cx + (x - gridSize / 2)) as real) * tileSize, 0.0, ((cz + (z - gridSize / 2)) as real) * tileSize)
  }

  /** All tiles, row by row. */
  function Layout(gridSize: nat, tileSize: real, cx: int, cz: int): (tiles: seq<seq<Vec3>>)
    ensures |tiles| == gridSize && forall x | 0 <= x < gridSize :: |tiles[x]| == gridSize
    ensures forall x, z | 0 <= x < gridSize && 0 <= z < gridSize ::
      tiles[x][z] == TilePos(gridSize, tileSize, cx, cz, x, z)
  {
    seq(gridSize, x requires 0 <= x < gridSize =>
      seq(gridSize, z requires 0 <= z < gridSize => TilePos(gridSize, tileSize, cx, cz, x, z)))
  }

  /** `Start`: the tiles laid out row by row around the origin, which is
      the layout centred on the floor's middle tile. */
  method Start(gridSize: nat, tileSize: real) returns (tiles: seq<seq<Vec3>>)
    ensures tiles == Layout(gridSize, tileSize, 0, 0)
  {
    tiles := [];
    var x := 0;
    while x < gridSize
      invariant 0 <= x <= gridSize && |tiles| == x
      invariant forall i | 0 <= i < x :: tiles[i] == Layout(gridSize, tileSize, 0, 0)[i]
    {
      var row := [];
      var z := 0;
      while z < gridSize
        invariant 0 <= z <= gridSize && |row| == z
        invariant forall j | 0 <= j < z :: row[j] == TilePos(gridSize, tileSize, 0, 0, x, j)
      {
        row := row + [Vec3(((x - gridSize / 2) as real) * tileSize, 0.0, ((z - gridSize / 2) as real) * tileSize)];
        z := z + 1;
      }
      assert row == Layout(gridSize, tileSize, 0, 0)[x];
      tiles := tiles + [row];
      x := x + 1;
    }
  }

  /** `Update`: the grid re-centred on the tile nearest below the robot. */
  function Update(gridSize: nat, tileSize: real, robot: Vec3): (tiles: seq<seq<Vec3>>)
    requires tileSize != 0.0
    ensures |tiles| == gridSize && forall x | 0 <= x < gridSize :: |tiles[x]| == gridSize
    ensures exists cx: int, cz: int :: tiles == Layout(gridSize, tileSize, cx, cz)
    ensures forall x, z | 0 <= x < gridSize && 0 <= z < gridSize :: tiles[x][z].y == 0.0
  {
    Layout(gridSize, tileSize, RoundToInt(robot.x / tileSize), RoundToInt(robot.z / tileSize))
  }

  /** With the robot over the origin tile the updated floor is the
      starting one. */
  lemma UpdateAtOriginIsStart(gridSize: nat, tileSize: real, robot: Vec3)
    requires tileSize > 0.0
    requires -tileSize / 2.0 < robot.x < tileSize / 2.0 && -tileSize / 2.0 < robot.z < tileSize / 2.0
    ensures Update(gridSize, tileSize, robot) == Layout(gridSize, tileSize, 0, 0)
  {
    NearOrigin(robot.x, tileSize);
    NearOrigin(robot.z, tileSize);
  }

  lemma NearOrigin(a: real, size: real)
    requires size > 0.0 && -size / 2.0 < a < size / 2.0
    ensures RoundToInt(a / size) == 0
  {
    assert -0.5 < a / size < 0.5 by {
      assert (a / size) * size == a;
    }
  }

  /** The middle tile lies under the robot whatever the grid's parity: its
      centre is at most half a tile from the robot along each floor axis. */
  lemma MiddleTileUnderRobot(gridSize: nat, tileSize: real, robot: Vec3)
    requires tileSize > 0.0 && gridSize > 0
    ensures var mid := Update(gridSize, tileSize, robot)[gridSize / 2][gridSize / 2];
      && mid.x - tileSize / 2.0 <= robot.x <= mid.x + tileSize / 2.0
      && mid.z - tileSize / 2.0 <= robot.z <= mid.z + tileSize / 2.0
  {
    var cx := RoundToInt(robot.x / tileSize);
    var cz := RoundToInt(robot.z / tileSize);
    NearestScaled(robot.x, tileSize, cx);
    NearestScaled(robot.z, tileSize, cz);
  }

  lemma NearestScaled(a: real, size: real, k: int)
    requires size > 0.0 && (k as real) - 0.5 <= a / size <= (k as real) + 0.5
    ensures (k as real) * size - size / 2.0 <= a <= (k as real) * size + size / 2.0
  {
    assert (a / size) * size == a;
    MulLe((k as real) - 0.5, a / size, size);
    MulLe(a / size, (k as real) + 0.5, size);
    assert ((k as real) - 0.5) * size == (k as real) * size - size / 2.0;
    assert ((k as real) + 0.5) * size == (k as real) * size + size / 2.0;
    assert a <= ((k as real) + 0.5) * size;
  }

  lemma MulLe(u: real, v: real, c: real)
    requires u <= v && c > 0.0
    ensures u * c <= v * c
  {
    assert v * c - u * c == (v - u) * c;
  }

  /** Distinct grid cells get distinct tiles: the floor has no overlap. */
  lemma TilesDistinct(gridSize: nat, tileSize: real, cx: int, cz: int, x: nat, z: nat, x': nat, z': nat)
    requires tileSize != 0.0
    requires (x, z) != (x', z')
    ensures TilePos(gridSize, tileSize, cx, cz, x, z) != TilePos(gridSize, tileSize, cx, cz, x', z')
  {
    if x != x' {
      assert ((cx + (x - gridSize / 2)) as real) != ((cx + (x' - gridSize / 2)) as real);
      MulCancel((cx + (x - gridSize / 2)) as real, (cx + (x' - gridSize / 2)) as real, tileSize);
    } else {
      MulCancel((cz + (z - gridSize / 2)) as real, (cz + (z' - gridSize / 2)) as real, tileSize);
    }
  }

  lemma MulCancel(a: real, b: real, c: real)
    requires c != 0.0 && a != b
    ensures a * c != b * c
  {
    assert a * c - b * c == (a - b) * c;
  }
}
