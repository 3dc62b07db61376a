/** Grid, bounds and floor data shared by every component
    (src/utils/constants.js). Coordinates are kept in tenths of a scene
    unit, so that the source's tolerances (0.5, 1.0 and 1.2 units) are
    exact integers. */
module Constants {

  /** One scene unit, in tenths. */
  const Unit: int := 10

  /** GRID_SIZE = 2 units, written out in tenths. */
  const GridSize: int := 20

  /** FLOOR_HEIGHT = 3 units, written out in tenths. */
  const FloorHeight: int := 30

  /** An axis-aligned rectangle of legal (x, z) positions, bounds included. */
  datatype Bounds = Bounds(minX: int, maxX: int, minZ: int, maxZ: int)

  /** PARKING_BOUNDS: x in [-8, 6], z in [-5, 5]. */
  const ParkingBounds: Bounds := Bounds(-8 * Unit, 6 * Unit, -5 * Unit, 5 * Unit)

  /** One storey of the car park: its index, its height and its label. */
  datatype Floor = Floor(level: nat, y: int, name: string)

  /** FLOORS: ground floor first, each basement one FLOOR_HEIGHT lower. */
  const Floors: seq<Floor> := [
    Floor(0, 0, "Rez-de-chaussee"),
    Floor(1, -3 * Unit, "Sous-sol -1"),
    Floor(2, -6 * Unit, "Sous-sol -2")
  ]

  /** An index into FLOORS. */
  type FloorIndex = i: int | 0 <= i < 3

  /** DIRECTIONS: the movement axis a vehicle is tagged with. */
  datatype Axis = Horizontal | Vertical | Both

  /** The base URL actually used: BASE_URL, or "/" when it is empty. */
  function BaseOf(baseUrl: string): (base: string)
    ensures |base| > 0
    ensures baseUrl != [] ==> base == baseUrl
  {
    if baseUrl == [] then "/" else baseUrl
  }

  /** getAssetPath: the base URL followed by the path with at most one
      leading '/' removed. */
  function GetAssetPath(baseUrl: string, path: string): (url: string)
    ensures |path| > 0 && path[0] == '/' ==> url == BaseOf(baseUrl) + path[1..]
    ensures (|path| == 0 || path[0] != '/') ==> url == BaseOf(baseUrl) + path
    ensures |url| == |BaseOf(baseUrl)| + |path| - (if |path| > 0 && path[0] == '/' then 1 else 0)
  {
    var cleanPath := if |path| > 0 && path[0] == '/' then path[1..] else path;
    BaseOf(baseUrl) + cleanPath
  }

  /** A path and the same path with one leading '/' added name the same
      asset: the slash is never doubled after the base. */
  lemma AssetPathIgnoresLeadingSlash(baseUrl: string, path: string)
    requires |path| == 0 || path[0] != '/'
    ensures GetAssetPath(baseUrl, "/" + path) == GetAssetPath(baseUrl, path)
  {
    assert ("/" + path)[1..] == path;
  }

  /** With the default base "/", an absolute path maps to itself. */
  lemma RootBaseKeepsAbsolutePath(path: string)
    requires |path| > 0 && path[0] == '/'
    ensures GetAssetPath("/", path) == path
    ensures GetAssetPath("", path) == path
  {
    assert "/" + path[1..] == path;
  }

  /** The bounds rectangle is non-empty on both axes. */
  lemma ParkingBoundsNonEmpty()
    ensures ParkingBounds.minX <= ParkingBounds.maxX
    ensures ParkingBounds.minZ <= ParkingBounds.maxZ
  {
  }

  /** FLOORS is indexed by level, and each entry is exactly one
      FLOOR_HEIGHT below the previous, so heights strictly decrease. */
  lemma FloorsOrdered()
    ensures |Floors| == 3
    ensures forall i :: 0 <= i < |Floors| ==> Floors[i].level == i
    ensures forall i :: 0 <= i < |Floors| ==> Floors[i].y == -i * FloorHeight
    ensures forall i, j :: 0 <= i < j < |Floors| ==> Floors[j].y < Floors[i].y
  {
  }
}
