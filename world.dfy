/** The static city `spawn_world` builds: a 64 by 64 grid of square buildings
    separated by streets. All its quantities are whole numbers, so they are
    modelled as integers. */
module ZoWorld {

  const BuildingSize: int := 128
  const StreetSize: int := 128
  const Spacing: int := BuildingSize + StreetSize
  const Offset: int := -(BuildingSize / 2 + StreetSize / 2)
  /** The grid coordinates run over `GridMin <= x, y < GridMax`. */
  const GridMin: int := -32
  const GridMax: int := 32
  const Cells: int := GridMax - GridMin

  /** A static building: its centre and the side of its square collider. */
  datatype Building = Building(x: int, y: int, size: int)

  /** The building of grid cell `(gx, gy)`. */
  function BuildingAt(gx: int, gy: int): (b: Building)
    ensures b.size == 128
    ensures (b.x + 128) % 256 == 0 && (b.y + 128) % 256 == 0
  {
    Building(Offset + gx * Spacing, Offset + gy * Spacing, BuildingSize)
  }

  predicate InGrid(gx: int, gy: int)
  {
    GridMin <= gx < GridMax && GridMin <= gy < GridMax
  }

  /** The position of cell `(gx, gy)` in spawn order (`x` outer, `y` inner). */
  function CellIndex(gx: int, gy: int): (k: int)
    requires InGrid(gx, gy)
    ensures 0 <= k < Cells * Cells
    ensures k / Cells + GridMin == gx && k % Cells + GridMin == gy
  {
    (gx - GridMin) * Cells + (gy - GridMin)
  }

  /** `spawn_world`: the buildings in spawn order. */
  method SpawnWorld() returns (buildings: seq<Building>)
    ensures |buildings| == 4096
    ensures forall k :: 0 <= k < |buildings| ==> buildings[k] == BuildingAt(k / Cells + GridMin, k % Cells + GridMin)
    ensures forall gx, gy :: InGrid(gx, gy) ==> buildings[CellIndex(gx, gy)] == BuildingAt(gx, gy)
  {
    buildings := [];
    for x := GridMin to GridMax
      invariant |buildings| == (x - GridMin) * Cells
      invariant forall k :: 0 <= k < |buildings| ==> buildings[k] == BuildingAt(k / Cells + GridMin, k % Cells + GridMin)
    {
      for y := GridMin to GridMax
        invariant |buildings| == (x - GridMin) * Cells + (y - GridMin)
        invariant forall k :: 0 <= k < |buildings| ==> buildings[k] == BuildingAt(k / Cells + GridMin, k % Cells + GridMin)
      {
        assert CellIndex(x, y) == |buildings|;
        buildings := buildings + [Building(Offset + x * Spacing, Offset + y * Spacing, BuildingSize)];
      }
    }
  }

  /** Building `(x, y)` is centred at `(-128 + 256 x, -128 + 256 y)` and is 128 wide. */
  lemma BuildingCentre(gx: int, gy: int)
    ensures BuildingAt(gx, gy) == Building(-128 + 256 * gx, -128 + 256 * gy, 128)
  {
  }

  /** Distinct cells have distinct centres. */
  lemma DistinctCentres(gx1: int, gy1: int, gx2: int, gy2: int)
    requires (gx1, gy1) != (gx2, gy2)
    ensures (BuildingAt(gx1, gy1).x, BuildingAt(gx1, gy1).y) != (BuildingAt(gx2, gy2).x, BuildingAt(gx2, gy2).y)
  {
  }

  /** Grid neighbours differ by exactly 256 on one axis and not at all on the other. */
  lemma NeighbourSpacing(gx: int, gy: int)
    ensures BuildingAt(gx + 1, gy).x - BuildingAt(gx, gy).x == 256 && BuildingAt(gx + 1, gy).y == BuildingAt(gx, gy).y
    ensures BuildingAt(gx, gy + 1).y - BuildingAt(gx, gy).y == 256 && BuildingAt(gx, gy + 1).x == BuildingAt(gx, gy).x
  {
  }

  /** Whether point `(px, py)` lies in the closed square of building `b`. */
  predicate Covers(b: Building, px: real, py: real)
  {
    && (b.x - b.size / 2) as real <= px <= (b.x + b.size / 2) as real
    && (b.y - b.size / 2) as real <= py <= (b.y + b.size / 2) as real
  }

  function Abs(v: int): int
  {
    if v < 0 then -v else v
  }

  /** Two distinct buildings share no point: on some axis the street between
      their facing edges is at least 128 wide. */
  lemma NoOverlap(gx1: int, gy1: int, gx2: int, gy2: int, px: real, py: real)
    requires (gx1, gy1) != (gx2, gy2)
    ensures Abs(BuildingAt(gx1, gy1).x - BuildingAt(gx2, gy2).x) - BuildingSize >= StreetSize
         || Abs(BuildingAt(gx1, gy1).y - BuildingAt(gx2, gy2).y) - BuildingSize >= StreetSize
    ensures !(Covers(BuildingAt(gx1, gy1), px, py) && Covers(BuildingAt(gx2, gy2), px, py))
  {
    if gx1 != gx2 {
      assert Abs(gx1 - gx2) >= 1;
      assert Abs(BuildingAt(gx1, gy1).x - BuildingAt(gx2, gy2).x) == 256 * Abs(gx1 - gx2);
    } else {
      assert Abs(gy1 - gy2) >= 1;
      assert Abs(BuildingAt(gx1, gy1).y - BuildingAt(gx2, gy2).y) == 256 * Abs(gy1 - gy2);
    }
  }

  /** The origin, where the car is spawned, lies in a street: no building covers it. */
  lemma OriginInStreet(gx: int, gy: int)
    ensures !Covers(BuildingAt(gx, gy), 0.0, 0.0)
  {
    assert Abs(BuildingAt(gx, gy).x) >= 128;
  }

  /** The centres of the spawned buildings range from -8320 to 7808 on each axis,
      both bounds reached. */
  lemma CentreRange(gx: int, gy: int)
    requires InGrid(gx, gy)
    ensures -8320 <= BuildingAt(gx, gy).x <= 7808 && -8320 <= BuildingAt(gx, gy).y <= 7808
    ensures BuildingAt(GridMin, GridMin).x == -8320 && BuildingAt(GridMax - 1, GridMax - 1).x == 7808
    ensures BuildingAt(GridMin, GridMin).y == -8320 && BuildingAt(GridMax - 1, GridMax - 1).y == 7808
  {
  }

  /** Every cell of the grid gets exactly one building: the spawn order visits
      each cell once. */
  lemma CellIndexInjective(gx1: int, gy1: int, gx2: int, gy2: int)
    requires InGrid(gx1, gy1) && InGrid(gx2, gy2)
    ensures CellIndex(gx1, gy1) == CellIndex(gx2, gy2) <==> (gx1, gy1) == (gx2, gy2)
  {
  }
}
