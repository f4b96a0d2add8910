/** Raster bodies as the Vivid media codec presents them once parsed. The codec itself
    (`vivid_protocol`) is not part of this model: a parsed delta is taken to satisfy `InBounds`. */
module RasterFrames {
  import opened FixedWidth
  import opened Wrappers

  type byte = u8

  datatype Operation =
    | Overwrite(x: u32, y: u32, width: u32, height: u32, rgba: seq<byte>)
    | Copy(destinationX: u32, destinationY: u32, width: u32, height: u32, sourceX: u32, sourceY: u32)

  /** The rectangle of pixels an operation writes. */
  datatype Area = Area(x: u32, y: u32, width: u32, height: u32)

  function Written(operation: Operation): Area {
    match operation
    case Overwrite(x, y, width, height, _) => Area(x, y, width, height)
    case Copy(x, y, width, height, _, _) => Area(x, y, width, height)
  }

  predicate Fits(x: u32, y: u32, width: u32, height: u32, imageWidth: u32, imageHeight: u32) {
    x as int + width as int <= imageWidth as int && y as int + height as int <= imageHeight as int
  }

  /** What the delta parser checks against the source's negotiated dimensions. */
  predicate InBounds(operation: Operation, imageWidth: u32, imageHeight: u32) {
    match operation
    case Overwrite(x, y, width, height, rgba) =>
      && Fits(x, y, width, height, imageWidth, imageHeight)
      && |rgba| == width as int * height as int * 4
    case Copy(x, y, width, height, sourceX, sourceY) =>
      && Fits(x, y, width, height, imageWidth, imageHeight)
      && Fits(sourceX, sourceY, width, height, imageWidth, imageHeight)
  }

  predicate AllInBounds(operations: seq<Operation>, imageWidth: u32, imageHeight: u32) {
    forall i :: 0 <= i < |operations| ==> InBounds(operations[i], imageWidth, imageHeight)
  }

  /** A raster body after parsing and decompression. `Malformed` is one the parser rejects outright. */
  datatype Body =
    | Full(epoch: nat, frameId: nat, width: u32, height: u32, pixels: seq<byte>)
    | Delta(epoch: nat, frameId: nat, baseFrameId: nat, operations: seq<Operation>)
    | Malformed

  /** A composed image with the identity it was published under. */
  datatype Frame = Frame(epoch: nat, frameId: nat, pixels: seq<byte>)

  /** Dimensions of a source and the operation limit it negotiated, when it negotiated deltas. */
  datatype Config = Config(width: u32, height: u32, operationLimit: Option<nat>)

  /** `parse_delta_raster_frame` accepts a delta of at most `limit` operations that stay in the image. */
  predicate DeltaParses(body: Body, config: Config, limit: nat) {
    body.Delta? && |body.operations| <= limit && AllInBounds(body.operations, config.width, config.height)
  }

  const U64_LIMIT: nat := U64_MAX

  function SaturatingAdd(a: nat, b: nat): nat {
    if a + b <= U64_LIMIT then a + b else U64_LIMIT
  }

  function SaturatingMul(a: nat, b: nat): nat {
    if a * b <= U64_LIMIT then a * b else U64_LIMIT
  }

  /** The damage tolerated in one window: `frames` times the pixels of the image. */
  function DamageBudget(config: Config, frames: nat): nat {
    SaturatingMul(SaturatingMul(config.width as nat, config.height as nat), frames)
  }
}
