/**
 * The launch configuration and buffer sizes fixed in `main`: a SIZE x SIZE
 * problem, BLOCK_SIZE x BLOCK_SIZE work-groups, and the element type and
 * tolerance chosen at build time by USE_DOUBLE.
 */
module LaunchGeometry {

  /** Matrix side: the matrices are SIZE x SIZE. */
  const SIZE: nat := 16
  /** Tile side: each work-group is BLOCK_SIZE x BLOCK_SIZE work-items. */
  const BLOCK_SIZE: nat := 4

  /** The element type real_t: float by default, double when USE_DOUBLE is defined. */
  datatype Precision = Single | Double

  /** sizeof(real_t), for the usual 4-byte float and 8-byte double. */
  function ElementBytes(p: Precision): (bytes: nat)
    ensures bytes == 4 || bytes == 8
  {
    match p
    case Single => 4
    case Double => 8
  }

  /** The comparison tolerance EPS: tighter for double precision. */
  function Eps(p: Precision): (eps: real)
    ensures 0.0 < eps < 1.0
  {
    match p
    case Single => 0.00001
    case Double => 0.000000001
  }

  /** The double-precision tolerance is the tighter one. */
  lemma EpsTighterForDouble()
    ensures Eps(Double) < Eps(Single)
  {
  }

  /** BYTE_SIZE: the byte size of each device buffer, one SIZE x SIZE matrix of real_t. */
  function ByteSize(p: Precision): (bytes: nat)
    ensures bytes % ElementBytes(p) == 0 && bytes / ElementBytes(p) == SIZE * SIZE
  {
    SIZE * SIZE * ElementBytes(p)
  }

  /** A two-dimensional NDRange extent. */
  datatype Extent = Extent(x: nat, y: nat)

  /** globalWorkSize: one work-item per element of the output matrix. */
  const GlobalWorkSize: Extent := Extent(SIZE, SIZE)
  /** localWorkSize: one work-item per element of a tile. */
  const LocalWorkSize: Extent := Extent(BLOCK_SIZE, BLOCK_SIZE)

  /** The local extent is non-empty and divides the global extent component-wise. */
  predicate Tiles(global: Extent, local: Extent)
  {
    local.x > 0 && local.y > 0 && global.x % local.x == 0 && global.y % local.y == 0
  }

  /** The number of work-groups along each dimension. */
  function WorkGroups(global: Extent, local: Extent): (groups: Extent)
    requires Tiles(global, local)
    ensures groups.x * local.x == global.x && groups.y * local.y == global.y
  {
    Extent(global.x / local.x, global.y / local.y)
  }

  /**
   * The constants of main give a valid launch: the 4 x 4 tiles divide the
   * 16 x 16 extent into 4 x 4 work-groups, and the extent has one work-item
   * per element of the SIZE * SIZE host vectors.
   */
  lemma LaunchGeometryValid()
    ensures Tiles(GlobalWorkSize, LocalWorkSize)
    ensures WorkGroups(GlobalWorkSize, LocalWorkSize) == Extent(4, 4)
    ensures GlobalWorkSize.x * GlobalWorkSize.y == SIZE * SIZE
  {
  }
}
