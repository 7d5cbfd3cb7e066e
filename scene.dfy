/**
 * The normalised scene the face pipeline works on: tiles (one block state
 * and colour each) holding boxes on an integer grid, and the per-box render
 * cache of a transformable box.
 */
module Scene {
  import opened Wrappers
  import opened Facings
  import opened PolygonOps

  /** A grid count: always a positive integer once normalised. */
  type PositiveInt = n: int | n > 0 witness 1

  datatype BoxKind = Aabb | Transformable

  /** What a transformable box renders on one face, in world units. */
  datatype FaceRender = FaceRender(axisStrips: seq<Polygon>, tiltedRender: seq<Polygon>, isCompletelyFilled: bool)

  /** The memoised render cache of a transformable box: one entry per facing. */
  datatype RenderCache = RenderCache(faces: map<Facing, FaceRender>)
  {
    predicate Complete()
    {
      forall f: Facing :: f in faces
    }
  }

  /** The cache of a box without transform data: six empty faces. */
  const EmptyRenderCache: RenderCache :=
    RenderCache(map f: Facing | true :: FaceRender([], [], false))

  /**
   * A normalised box: raw bounds on its grid, the same bounds in world units,
   * the transform data of a transformable box and its render-cache memo.
   */
  datatype Box = Box(
    id: nat,
    kind: BoxKind,
    grid: PositiveInt,
    blockState: string,
    color: int,
    minX: int, minY: int, minZ: int,
    maxX: int, maxY: int, maxZ: int,
    minWorldX: real, minWorldY: real, minWorldZ: real,
    maxWorldX: real, maxWorldY: real, maxWorldZ: real,
    transformData: Option<seq<int>>,
    transformCache: Option<RenderCache>)
  {
    /** getBoxRawMin: the raw lower bound on a coordinate index. */
    function RawMin(axis: nat): int
    {
      if axis == 0 then minX else if axis == 1 then minY else minZ
    }

    /** getBoxRawMax: the raw upper bound on a coordinate index. */
    function RawMax(axis: nat): int
    {
      if axis == 0 then maxX else if axis == 1 then maxY else maxZ
    }

    function WorldMin(axis: nat): real
    {
      if axis == 0 then minWorldX else if axis == 1 then minWorldY else minWorldZ
    }

    function WorldMax(axis: nat): real
    {
      if axis == 0 then maxWorldX else if axis == 1 then maxWorldY else maxWorldZ
    }
  }

  /** A normalised tile: one block state and colour, its behaviour flags and its boxes. */
  datatype Tile = Tile(
    id: nat,
    blockState: string,
    blockId: string,
    color: int,
    structureId: Option<string>,
    structureNoCollision: bool,
    grid: PositiveInt,
    providesSolidFace: bool,
    cullOverEdge: bool,
    boxes: seq<Box>)

  /** The kind of polygon an emitted face carries: an axis-aligned piece or a tilted fragment. */
  datatype FaceType = AxisFace | TiltedFace

  /**
   * A face emitted by the candidate pipeline: the tile's block state, block
   * id, colour and solidity, the kind of box it came from, its facing, its
   * polygon kind, whether it lies on the block boundary, and its vertices.
   */
  datatype VisibleFace = VisibleFace(
    blockState: string,
    blockId: string,
    color: int,
    providesSolidFace: bool,
    sourceKind: BoxKind,
    facing: Facing,
    faceType: FaceType,
    outside: bool,
    vertices: Polygon)
}
