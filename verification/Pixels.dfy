/** Applying raster delta operations to a pixel buffer in place (src/media.rs). The buffer holds four
    bytes a pixel, row after row; a copy may overlap itself in any direction. */
module Pixels {
  import opened FixedWidth
  import opened PointSets
  import opened RasterFrames
  import Damage

  // ---- Rows and columns of a linear buffer ----

  /** The number of bytes in `n` rows. */
  function Rows(n: int, stride: int): int { n * stride }

  function Stride(width: u32): int { width as int * 4 }

  /** The index of byte `column` of row `row`. */
  function Start(stride: int, row: int, column: int): int { Rows(row, stride) + column }

  lemma {:induction false} RowsAreMonotonic(stride: int, m: int, n: int)
    requires 0 <= stride && m < n
    ensures Rows(m, stride) + stride <= Rows(n, stride)
    decreases n - m
  {
    assert Rows(n, stride) == Rows(n - 1, stride) + stride;
    if m < n - 1 {
      RowsAreMonotonic(stride, m, n - 1);
    }
  }

  lemma StartInRange(stride: int, height: int, row: int, end: int)
    requires 0 <= row < height && 0 <= end <= stride
    ensures 0 <= Rows(row, stride) && Rows(row, stride) + end <= Rows(height, stride)
  {
    hide Rows;
    NoRows(stride);
    RowsAreMonotonic(stride, row, height);
    if row > 0 {
      RowsAreMonotonic(stride, 0, row);
    }
  }

  lemma NoRows(stride: int)
    ensures Rows(0, stride) == 0
  {
  }

  lemma StartIsUnique(stride: int, row: int, column: int, row': int, column': int)
    requires 0 <= column < stride && 0 <= column' < stride
    requires Start(stride, row, column) == Start(stride, row', column')
    ensures row == row' && column == column'
  {
    hide Rows;
    if row < row' {
      RowsAreMonotonic(stride, row, row');
    } else if row' < row {
      RowsAreMonotonic(stride, row', row);
    }
  }

  /** Every index of a buffer is the start of a row plus a column. */
  lemma RowAndColumn(stride: int, height: int, i: int)
    requires 0 < stride && 0 <= i < Rows(height, stride)
    ensures i == Start(stride, i / stride, i % stride)
    ensures 0 <= i % stride < stride && 0 <= i / stride < height
  {
    assert i == stride * (i / stride) + i % stride;
    if height <= i / stride {
      if height < i / stride {
        RowsAreMonotonic(stride, height, i / stride);
      }
    }
  }

  // ---- Specification: every byte at once, from the buffer before the operation ----

  ghost predicate Writes(area: Area, row: int, column: int) {
    && area.y as int <= row < area.y as int + area.height as int
    && 4 * area.x as int <= column < 4 * area.x as int + 4 * area.width as int
  }

  ghost predicate Sized(pixels: seq<byte>, width: u32, height: u32) {
    |pixels| == Rows(height as int, Stride(width))
  }

  /** Where the new value of a written byte comes from: an index into the payload of an overwrite, or
      into the buffer as it was before a copy. */
  ghost function SourceIndex(operation: Operation, width: u32, row: int, column: int): int {
    match operation
    case Overwrite(x, y, w, h, _) =>
      Start(Stride(w), row - y as int, column - 4 * x as int)
    case Copy(x, y, w, h, sx, sy) =>
      Start(Stride(width), row - y as int + sy as int, column - 4 * x as int + 4 * sx as int)
  }

  ghost function SourceBytes(pixels: seq<byte>, operation: Operation): seq<byte> {
    match operation
    case Overwrite(_, _, _, _, rgba) => rgba
    case Copy(_, _, _, _, _, _) => pixels
  }

  lemma SourceInRange(pixels: seq<byte>, width: u32, height: u32, operation: Operation, row: int, column: int)
    requires Sized(pixels, width, height) && InBounds(operation, width, height)
    requires Writes(Written(operation), row, column)
    ensures 0 <= SourceIndex(operation, width, row, column) < |SourceBytes(pixels, operation)|
  {
    hide Rows;
    match operation
    case Overwrite(x, y, w, h, rgba) =>
      PayloadRows(operation, width, height);
      StartInRange(Stride(w), h as int, row - y as int, column - 4 * x as int + 1);
    case Copy(x, y, w, h, sx, sy) =>
      StartInRange(Stride(width), height as int, row - y as int + sy as int, column - 4 * x as int + 4 * sx as int + 1);
  }

  lemma PayloadRows(operation: Operation, width: u32, height: u32)
    requires operation.Overwrite? && InBounds(operation, width, height)
    ensures |operation.rgba| == Rows(operation.height as int, Stride(operation.width))
  {
    var w, h := operation.width as int, operation.height as int;
    assert w * h * 4 == h * (w * 4);
  }

  ghost function AppliedAt(pixels: seq<byte>, width: u32, height: u32, operation: Operation, row: int, column: int): byte
    requires Sized(pixels, width, height) && InBounds(operation, width, height)
    requires 0 <= row < height as int && 0 <= column < Stride(width)
  {
    if Writes(Written(operation), row, column) then
      SourceInRange(pixels, width, height, operation, row, column);
      SourceBytes(pixels, operation)[SourceIndex(operation, width, row, column)]
    else
      StartInRange(Stride(width), height as int, row, column + 1);
      pixels[Start(Stride(width), row, column)]
  }

  ghost function AppliedByte(pixels: seq<byte>, width: u32, height: u32, operation: Operation, i: int): byte
    requires Sized(pixels, width, height) && InBounds(operation, width, height) && 0 <= i < |pixels|
  {
    RowAndColumn(Stride(width), height as int, i);
    AppliedAt(pixels, width, height, operation, i / Stride(width), i % Stride(width))
  }

  /** The buffer after `operation`, every byte computed from the buffer before it. */
  ghost function Applied(pixels: seq<byte>, width: u32, height: u32, operation: Operation): (r: seq<byte>)
    requires Sized(pixels, width, height) && InBounds(operation, width, height)
    ensures Sized(r, width, height)
  {
    seq(|pixels|, i requires 0 <= i < |pixels| => AppliedByte(pixels, width, height, operation, i))
  }

  /** The fold of an operation list. */
  ghost function AppliedAll(pixels: seq<byte>, width: u32, height: u32, operations: seq<Operation>): (r: seq<byte>)
    requires Sized(pixels, width, height) && AllInBounds(operations, width, height)
    ensures Sized(r, width, height)
  {
    if operations == [] then pixels
    else
      var n := |operations| - 1;
      assert InBounds(operations[n], width, height);
      Applied(AppliedAll(pixels, width, height, operations[..n]), width, height, operations[n])
  }

  // ---- The in-place code ----

  /** Rows `from` up to `to` of the operation have been written; all other bytes are as before. */
  ghost predicate Progress(now: seq<byte>, before: seq<byte>, width: u32, height: u32, operation: Operation,
                           from: int, to: int)
    requires Sized(before, width, height) && InBounds(operation, width, height)
  {
    && |now| == |before|
    && forall row, column :: 0 <= row < height as int && 0 <= column < Stride(width) ==>
         Holds(now, Start(Stride(width), row, column),
               Expected(before, width, height, operation, from, to, row, column))
  }

  ghost predicate Holds(pixels: seq<byte>, i: int, value: byte) {
    0 <= i < |pixels| && pixels[i] == value
  }

  ghost function ByteAt(pixels: seq<byte>, width: u32, height: u32, row: int, column: int): byte
    requires Sized(pixels, width, height) && 0 <= row < height as int && 0 <= column < Stride(width)
  {
    StartInRange(Stride(width), height as int, row, column + 1);
    pixels[Start(Stride(width), row, column)]
  }

  lemma NoProgress(before: seq<byte>, width: u32, height: u32, operation: Operation, at: int)
    requires Sized(before, width, height) && InBounds(operation, width, height)
    ensures Progress(before, before, width, height, operation, at, at)
  {
    hide Rows;
    forall row, column | 0 <= row < height as int && 0 <= column < Stride(width)
      ensures 0 <= Start(Stride(width), row, column) < |before|
    {
      StartInRange(Stride(width), height as int, row, column + 1);
    }
  }

  /** All rows written: the buffer is the operation applied at once. */
  lemma FullProgress(now: seq<byte>, before: seq<byte>, width: u32, height: u32, operation: Operation)
    requires Sized(before, width, height) && InBounds(operation, width, height)
    requires Progress(now, before, width, height, operation, 0, Written(operation).height as int)
    ensures now == Applied(before, width, height, operation)
  {
    hide Rows;
    forall i | 0 <= i < |now|
      ensures now[i] == AppliedByte(before, width, height, operation, i)
    {
      var stride := Stride(width);
      NonEmptyStride(width, height, i);
      RowAndColumn(stride, height as int, i);
      assert Holds(now, Start(stride, i / stride, i % stride),
        Expected(before, width, height, operation, 0, Written(operation).height as int, i / stride, i % stride));
    }
  }

  lemma NonEmptyStride(width: u32, height: u32, i: int)
    requires 0 <= i < Rows(height as int, Stride(width))
    ensures Stride(width) > 0
  {
  }

  /** `after` is `now` with one row of the operation written. */
  ghost predicate RowWritten(after: seq<byte>, now: seq<byte>, before: seq<byte>, width: u32, height: u32,
                             operation: Operation, row: int)
    requires Sized(before, width, height) && InBounds(operation, width, height)
    requires Written(operation).y as int <= row < Written(operation).y as int + Written(operation).height as int
  {
    var area := Written(operation);
    var start := Start(Stride(width), row, 4 * area.x as int);
    && |after| == |now|
    && (forall i :: 0 <= i < |after| && !(start <= i < start + 4 * area.width as int) ==> after[i] == now[i])
    && (forall c :: 4 * area.x as int <= c < 4 * area.x as int + 4 * area.width as int ==>
          Holds(after, Start(Stride(width), row, c), AppliedAt(before, width, height, operation, row, c)))
  }

  ghost function Expected(before: seq<byte>, width: u32, height: u32, operation: Operation, from: int, to: int,
                          row: int, column: int): byte
    requires Sized(before, width, height) && InBounds(operation, width, height)
    requires 0 <= row < height as int && 0 <= column < Stride(width)
  {
    if from <= row - Written(operation).y as int < to then AppliedAt(before, width, height, operation, row, column)
    else ByteAt(before, width, height, row, column)
  }

  lemma OneRowAt(before: seq<byte>, now: seq<byte>, after: seq<byte>, width: u32, height: u32,
                 operation: Operation, from: int, to: int, row: int, r: int, c: int)
    requires Sized(before, width, height) && InBounds(operation, width, height)
    requires 0 <= r < height as int && 0 <= c < Stride(width)
    requires Holds(now, Start(Stride(width), r, c), Expected(before, width, height, operation, from, to, r, c))
    requires Written(operation).y as int <= row < Written(operation).y as int + Written(operation).height as int
    requires RowWritten(after, now, before, width, height, operation, row)
    ensures Holds(after, Start(Stride(width), r, c),
      if r == row then AppliedAt(before, width, height, operation, r, c)
      else Expected(before, width, height, operation, from, to, r, c))
  {
    hide Rows, SourceIndex, SourceBytes;
    var area := Written(operation);
    var stride := Stride(width);
    var i, start := Start(stride, r, c), Start(stride, row, 4 * area.x as int);
    if start <= i < start + 4 * area.width as int {
      StartIsUnique(stride, r, c, row, 4 * area.x as int + (i - start));
    } else {
      assert after[i] == now[i];
    }
  }

  /** Writing the next row below, or the next row above, makes progress by exactly that row. */
  lemma OneRow(before: seq<byte>, now: seq<byte>, after: seq<byte>, width: u32, height: u32,
               operation: Operation, from: int, to: int, row: int, from': int, to': int)
    requires Sized(before, width, height) && InBounds(operation, width, height)
    requires from <= to && Progress(now, before, width, height, operation, from, to)
    requires 0 <= row < Written(operation).height as int
    requires (from' == from && to' == to + 1 && row == to) || (from' == from - 1 && to' == to && row == from - 1)
    requires RowWritten(after, now, before, width, height, operation, Written(operation).y as int + row)
    ensures Progress(after, before, width, height, operation, from', to')
  {
    hide Rows, AppliedAt, RowWritten, Holds;
    var area := Written(operation);
    assert |after| == |now| by {
      SameLength(before, now, after, width, height, operation, area.y as int + row);
    }
    forall r, c | 0 <= r < height as int && 0 <= c < Stride(width)
      ensures Holds(after, Start(Stride(width), r, c), Expected(before, width, height, operation, from', to', r, c))
    {
      OneRowAt(before, now, after, width, height, operation, from, to, area.y as int + row, r, c);
    }
  }

  lemma SameLength(before: seq<byte>, now: seq<byte>, after: seq<byte>, width: u32, height: u32,
                   operation: Operation, row: int)
    requires Sized(before, width, height) && InBounds(operation, width, height)
    requires Written(operation).y as int <= row < Written(operation).y as int + Written(operation).height as int
    requires RowWritten(after, now, before, width, height, operation, row)
    ensures |after| == |now|
  {
  }

  /** `after` is `now` with `length` bytes moved from `source` to `destination` as if all at once. */
  ghost predicate Moved(after: seq<byte>, now: seq<byte>, source: int, length: int, destination: int) {
    && |after| == |now| && 0 <= source && source + length <= |now|
    && forall i {:trigger after[i]} :: 0 <= i < |after| ==>
         after[i] == if destination <= i < destination + length then now[source + (i - destination)] else now[i]
  }

  /** The row of a copy is still untouched in the buffer when it is read, whichever way the area moves. */
  lemma CopiedRow(before: seq<byte>, now: seq<byte>, after: seq<byte>, width: u32, height: u32,
                  operation: Operation, from: int, to: int, row: int)
    requires operation.Copy?
    requires Sized(before, width, height) && InBounds(operation, width, height)
    requires 0 <= from <= to <= operation.height as int && 0 <= row < operation.height as int
    requires Progress(now, before, width, height, operation, from, to)
    requires
      || (operation.destinationY > operation.sourceY && row + 1 == from && to == operation.height as int)
      || (operation.destinationY <= operation.sourceY && from == 0 && row == to)
    requires Moved(after, now,
      Start(Stride(width), operation.sourceY as int + row, 4 * operation.sourceX as int), Stride(operation.width),
      Start(Stride(width), operation.destinationY as int + row, 4 * operation.destinationX as int))
    ensures RowWritten(after, now, before, width, height, operation, operation.destinationY as int + row)
  {
    hide Rows;
    var stride := Stride(width);
    var r, s := operation.destinationY as int + row, operation.sourceY as int + row;
    var shift := 4 * operation.sourceX as int - 4 * operation.destinationX as int;
    forall c | 4 * operation.destinationX as int <= c < 4 * operation.destinationX as int + 4 * operation.width as int
      ensures Holds(after, Start(stride, r, c), AppliedAt(before, width, height, operation, r, c))
    {
      StartInRange(stride, height as int, r, c + 1);
      StartInRange(stride, height as int, s, c + shift + 1);
      assert Holds(now, Start(stride, s, c + shift), Expected(before, width, height, operation, from, to, s, c + shift));
    }
  }

  lemma OverwrittenRow(before: seq<byte>, now: seq<byte>, after: seq<byte>, width: u32, height: u32,
                       operation: Operation, row: int)
    requires operation.Overwrite?
    requires Sized(before, width, height) && InBounds(operation, width, height)
    requires 0 <= row < operation.height as int && |now| == |before|
    requires
      var length := Stride(operation.width);
      var source := Rows(row, length);
      var destination := Start(Stride(width), operation.y as int + row, 4 * operation.x as int);
      && |after| == |now| && 0 <= source && source + length <= |operation.rgba|
      && forall i :: 0 <= i < |after| ==>
           after[i] == if destination <= i < destination + length then operation.rgba[source..source + length][i - destination]
                       else now[i]
    ensures RowWritten(after, now, before, width, height, operation, operation.y as int + row)
  {
    hide Rows;
    var stride := Stride(width);
    var r := operation.y as int + row;
    forall c | 4 * operation.x as int <= c < 4 * operation.x as int + 4 * operation.width as int
      ensures Holds(after, Start(stride, r, c), AppliedAt(before, width, height, operation, r, c))
    {
      StartInRange(stride, height as int, r, c + 1);
    }
  }

  /** `slice::copy_within`: the bytes move as if through a temporary copy. */
  method CopyWithin(pixels: array<byte>, source: int, length: int, destination: int)
    requires 0 <= length && 0 <= source && source + length <= pixels.Length
    requires 0 <= destination && destination + length <= pixels.Length
    modifies pixels
    ensures Moved(pixels[..], old(pixels[..]), source, length, destination)
  {
    forall k | destination <= k < destination + length {
      pixels[k] := pixels[source + (k - destination)];
    }
  }

  /** `slice::copy_from_slice` into a part of the buffer. */
  method CopyFromSlice(pixels: array<byte>, destination: int, bytes: seq<byte>)
    requires 0 <= destination && destination + |bytes| <= pixels.Length
    modifies pixels
    ensures forall i :: 0 <= i < pixels.Length ==>
      pixels[i] == if destination <= i < destination + |bytes| then bytes[i - destination] else old(pixels[..])[i]
  {
    forall k | destination <= k < destination + |bytes| {
      pixels[k] := bytes[k - destination];
    }
  }

  method OverwriteRows(pixels: array<byte>, width: u32, height: u32, operation: Operation)
    requires operation.Overwrite?
    requires Sized(pixels[..], width, height) && InBounds(operation, width, height)
    modifies pixels
    ensures pixels[..] == Applied(old(pixels[..]), width, height, operation)
  {
    hide Rows, Progress, RowWritten, Applied;
    ghost var before := pixels[..];
    var rowBytes := Stride(operation.width);
    var row := 0;
    NoProgress(before, width, height, operation, 0);
    while row < operation.height as int
      invariant 0 <= row <= operation.height as int
      invariant Progress(pixels[..], before, width, height, operation, 0, row)
    {
      ghost var now := pixels[..];
      var destination := Start(Stride(width), operation.y as int + row, 4 * operation.x as int);
      var source := Rows(row, rowBytes);
      StartInRange(Stride(width), height as int, operation.y as int + row, 4 * operation.x as int + rowBytes);
      PayloadRows(operation, width, height);
      StartInRange(rowBytes, operation.height as int, row, rowBytes);
      CopyFromSlice(pixels, destination, operation.rgba[source..source + rowBytes]);
      OverwrittenRow(before, now, pixels[..], width, height, operation, row);
      OneRow(before, now, pixels[..], width, height, operation, 0, row, row, 0, row + 1);
      row := row + 1;
    }
    FullProgress(pixels[..], before, width, height, operation);
  }

  /** The rows of a copy go from the last to the first when the area moves down, otherwise from the
      first to the last; either way the result is the simultaneous copy. */
  method CopyRows(pixels: array<byte>, width: u32, height: u32, operation: Operation)
    requires operation.Copy?
    requires Sized(pixels[..], width, height) && InBounds(operation, width, height)
    modifies pixels
    ensures pixels[..] == Applied(old(pixels[..]), width, height, operation)
  {
    hide Rows, Progress, RowWritten, Applied;
    ghost var before := pixels[..];
    var rowBytes := Stride(operation.width);
    var rows := operation.height as int;
    if operation.destinationY > operation.sourceY {
      var row := rows;
      NoProgress(before, width, height, operation, rows);
      while row > 0
        invariant 0 <= row <= rows
        invariant Progress(pixels[..], before, width, height, operation, row, rows)
      {
        ghost var now := pixels[..];
        row := row - 1;
        CopyRow(pixels, width, height, operation, row);
        CopiedRow(before, now, pixels[..], width, height, operation, row + 1, rows, row);
        OneRow(before, now, pixels[..], width, height, operation, row + 1, rows, row, row, rows);
      }
    } else {
      var row := 0;
      NoProgress(before, width, height, operation, 0);
      while row < rows
        invariant 0 <= row <= rows
        invariant Progress(pixels[..], before, width, height, operation, 0, row)
      {
        ghost var now := pixels[..];
        CopyRow(pixels, width, height, operation, row);
        CopiedRow(before, now, pixels[..], width, height, operation, 0, row, row);
        OneRow(before, now, pixels[..], width, height, operation, 0, row, row, 0, row + 1);
        row := row + 1;
      }
    }
    FullProgress(pixels[..], before, width, height, operation);
  }

  method CopyRow(pixels: array<byte>, width: u32, height: u32, operation: Operation, row: int)
    requires operation.Copy? && Sized(pixels[..], width, height) && InBounds(operation, width, height)
    requires 0 <= row < operation.height as int
    modifies pixels
    ensures Moved(pixels[..], old(pixels[..]),
      Start(Stride(width), operation.sourceY as int + row, 4 * operation.sourceX as int), Stride(operation.width),
      Start(Stride(width), operation.destinationY as int + row, 4 * operation.destinationX as int))
  {
    hide Rows;
    var rowBytes := Stride(operation.width);
    var source := Start(Stride(width), operation.sourceY as int + row, 4 * operation.sourceX as int);
    var destination := Start(Stride(width), operation.destinationY as int + row, 4 * operation.destinationX as int);
    StartInRange(Stride(width), height as int, operation.sourceY as int + row, 4 * operation.sourceX as int + rowBytes);
    StartInRange(Stride(width), height as int, operation.destinationY as int + row, 4 * operation.destinationX as int + rowBytes);
    CopyWithin(pixels, source, rowBytes, destination);
  }

  method ApplyRasterDeltaOperation(pixels: array<byte>, width: u32, height: u32, operation: Operation)
    requires Sized(pixels[..], width, height) && InBounds(operation, width, height)
    modifies pixels
    ensures pixels[..] == Applied(old(pixels[..]), width, height, operation)
  {
    match operation
    case Overwrite(_, _, _, _, _) => OverwriteRows(pixels, width, height, operation);
    case Copy(_, _, _, _, _, _) => CopyRows(pixels, width, height, operation);
  }

  /** The loop over a delta's operations (src/media.rs, `prepare_raster`). */
  method ApplyOperations(pixels: array<byte>, width: u32, height: u32, operations: seq<Operation>)
    requires Sized(pixels[..], width, height) && AllInBounds(operations, width, height)
    modifies pixels
    ensures pixels[..] == AppliedAll(old(pixels[..]), width, height, operations)
  {
    hide Applied, Rows;
    ghost var before := pixels[..];
    var i := 0;
    while i < |operations|
      invariant 0 <= i <= |operations|
      invariant Sized(pixels[..], width, height)
      invariant AllInBounds(operations[..i], width, height)
      invariant pixels[..] == AppliedAll(before, width, height, operations[..i])
    {
      assert InBounds(operations[i], width, height);
      ApplyRasterDeltaOperation(pixels, width, height, operations[i]);
      assert operations[..i + 1][..i] == operations[..i];
      i := i + 1;
    }
    assert operations[..i] == operations;
  }

  // ---- What the operations mean for whole pixels ----

  /** The four bytes of the pixel at column `x` of row `y`. */
  ghost function Pixel(pixels: seq<byte>, width: u32, height: u32, x: int, y: int): (r: seq<byte>)
    requires Sized(pixels, width, height) && 0 <= x < width as int && 0 <= y < height as int
    ensures |r| == 4
  {
    StartInRange(Stride(width), height as int, y, 4 * x + 4);
    pixels[Start(Stride(width), y, 4 * x)..Start(Stride(width), y, 4 * x) + 4]
  }

  /** What an operation leaves at one pixel: the payload, the source pixel of before, or nothing new. */
  ghost function ExpectedPixel(pixels: seq<byte>, width: u32, height: u32, operation: Operation, x: int, y: int): (r: seq<byte>)
    requires Sized(pixels, width, height) && InBounds(operation, width, height)
    requires 0 <= x < width as int && 0 <= y < height as int
    ensures |r| == 4
  {
    if !Damage.Holds(Written(operation), x, y) then Pixel(pixels, width, height, x, y)
    else
      match operation
      case Copy(dx, dy, _, _, sx, sy) =>
        Pixel(pixels, width, height, x - dx as int + sx as int, y - dy as int + sy as int)
      case Overwrite(left, top, w, h, rgba) =>
        PayloadRows(operation, width, height);
        Pixel(rgba, w, h, x - left as int, y - top as int)
  }

  lemma AppliedByteAt(pixels: seq<byte>, width: u32, height: u32, operation: Operation, row: int, column: int)
    requires Sized(pixels, width, height) && InBounds(operation, width, height)
    requires 0 <= row < height as int && 0 <= column < Stride(width)
    ensures Holds(Applied(pixels, width, height, operation), Start(Stride(width), row, column),
      AppliedAt(pixels, width, height, operation, row, column))
  {
    hide Rows, AppliedAt;
    var i := Start(Stride(width), row, column);
    StartInRange(Stride(width), height as int, row, column + 1);
    RowAndColumn(Stride(width), height as int, i);
    StartIsUnique(Stride(width), row, column, i / Stride(width), i % Stride(width));
    assert Applied(pixels, width, height, operation)[i] == AppliedByte(pixels, width, height, operation, i);
  }

  /** One byte of that pixel. */
  lemma AppliedPixelByte(pixels: seq<byte>, width: u32, height: u32, operation: Operation, x: int, y: int, k: nat)
    requires Sized(pixels, width, height) && InBounds(operation, width, height)
    requires 0 <= x < width as int && 0 <= y < height as int && k < 4
    ensures Pixel(Applied(pixels, width, height, operation), width, height, x, y)[k]
      == ExpectedPixel(pixels, width, height, operation, x, y)[k]
  {
    hide Rows, Applied;
    AppliedByteAt(pixels, width, height, operation, y, 4 * x + k);
    PixelByte(Applied(pixels, width, height, operation), width, height, x, y, k);
    if !Damage.Holds(Written(operation), x, y) {
      PixelByte(pixels, width, height, x, y, k);
    } else if operation.Copy? {
      PixelByte(pixels, width, height, x - operation.destinationX as int + operation.sourceX as int,
        y - operation.destinationY as int + operation.sourceY as int, k);
    } else {
      PayloadRows(operation, width, height);
      PixelByte(operation.rgba, operation.width, operation.height, x - operation.x as int, y - operation.y as int, k);
    }
  }

  /** Both kinds of operation act on whole pixels, and a copy reads them all before it writes any. */
  lemma AppliedPixel(pixels: seq<byte>, width: u32, height: u32, operation: Operation, x: int, y: int)
    requires Sized(pixels, width, height) && InBounds(operation, width, height)
    requires 0 <= x < width as int && 0 <= y < height as int
    ensures Pixel(Applied(pixels, width, height, operation), width, height, x, y)
      == ExpectedPixel(pixels, width, height, operation, x, y)
  {
    hide Rows, Applied, Pixel;
    var actual := Pixel(Applied(pixels, width, height, operation), width, height, x, y);
    var expected := ExpectedPixel(pixels, width, height, operation, x, y);
    forall k | 0 <= k < 4 ensures actual[k] == expected[k] {
      AppliedPixelByte(pixels, width, height, operation, x, y, k);
    }
  }

  lemma PixelByte(pixels: seq<byte>, width: u32, height: u32, x: int, y: int, k: int)
    requires Sized(pixels, width, height) && 0 <= x < width as int && 0 <= y < height as int && 0 <= k < 4
    ensures Holds(pixels, Start(Stride(width), y, 4 * x + k), Pixel(pixels, width, height, x, y)[k])
  {
    hide Rows;
    StartInRange(Stride(width), height as int, y, 4 * x + 4);
  }

  /** Pixels outside the damaged region keep their value through a whole operation list. */
  lemma {:induction false} UndamagedPixel(pixels: seq<byte>, width: u32, height: u32, operations: seq<Operation>, x: int, y: int)
    requires Sized(pixels, width, height) && AllInBounds(operations, width, height)
    requires 0 <= x < width as int && 0 <= y < height as int
    requires (x, y) !in Damage.Damaged(Damage.AreasOf(operations))
    ensures Pixel(AppliedAll(pixels, width, height, operations), width, height, x, y) == Pixel(pixels, width, height, x, y)
  {
    hide Rows, Applied, Pixel, Damage.Damaged;
    if operations != [] {
      var n := |operations| - 1;
      var init := operations[..n];
      assert InBounds(operations[n], width, height);
      Damage.InDamaged(Damage.AreasOf(operations), x, y);
      Damage.InDamaged(Damage.AreasOf(init), x, y);
      assert Damage.AreasOf(operations)[n] == Written(operations[n]);
      assert forall i :: 0 <= i < n ==> Damage.AreasOf(init)[i] == Damage.AreasOf(operations)[i];
      UndamagedPixel(pixels, width, height, init, x, y);
      AppliedPixel(AppliedAll(pixels, width, height, init), width, height, operations[n], x, y);
    }
  }

  ghost function Changed(before: seq<byte>, after: seq<byte>, width: u32, height: u32): set<Point>
    requires Sized(before, width, height) && Sized(after, width, height)
  {
    set p | p in Block(0, 0, width as nat, height as nat) && Differs(before, after, width, height, p.0, p.1)
  }

  ghost predicate Differs(before: seq<byte>, after: seq<byte>, width: u32, height: u32, x: int, y: int)
    requires Sized(before, width, height) && Sized(after, width, height)
  {
    0 <= x < width as int && 0 <= y < height as int &&
    Pixel(before, width, height, x, y) != Pixel(after, width, height, x, y)
  }

  /** A delta never changes more pixels than its damage accounting charges for. */
  lemma ChangesAreCharged(pixels: seq<byte>, width: u32, height: u32, operations: seq<Operation>)
    requires Sized(pixels, width, height) && AllInBounds(operations, width, height)
    ensures |Changed(pixels, AppliedAll(pixels, width, height, operations), width, height)|
      <= |Damage.Damaged(Damage.AreasOf(operations))|
  {
    hide AppliedAll, Damage.Damaged, Block;
    var changed := Changed(pixels, AppliedAll(pixels, width, height, operations), width, height);
    forall p | p in changed
      ensures p in Damage.Damaged(Damage.AreasOf(operations))
    {
      if p !in Damage.Damaged(Damage.AreasOf(operations)) {
        UndamagedPixel(pixels, width, height, operations, p.0, p.1);
      }
    }
    SubsetSize(changed, Damage.Damaged(Damage.AreasOf(operations)));
  }
}
