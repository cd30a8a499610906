/** The streaming scanline validator (sections 2.3 and 2.5 of RFC 2083) and the decoded size it expects. */
module PngScanlines {
  import opened Common
  import opened PngInterlace

  type Bytes = seq<bv8>

  const MAX_DECODED_IMAGE_BYTES: nat := 268435456

  /** The highest filter type. */
  const MAX_FILTER: bv8 := 4

  /** Decoded bytes of one row: the filter byte and the pixels. */
  function RowSize(width: nat, bitsPerPixel: nat): (n: nat)
    ensures n >= 1
  {
    (width * bitsPerPixel + 7) / 8 + 1
  }

  /** A row has one filter byte and just enough bytes for its pixels' bits. */
  lemma RowSizeIsTight(width: nat, bitsPerPixel: nat)
    ensures var pixelBytes := RowSize(width, bitsPerPixel) - 1;
      8 * (pixelBytes - 1) < width * bitsPerPixel <= 8 * pixelBytes
  {
    var bits := width * bitsPerPixel;
    assert RowSize(width, bitsPerPixel) == (bits + 7) / 8 + 1;
  }

  function Repeat(size: nat, count: nat): (rows: seq<nat>)
    ensures |rows| == count && forall i | 0 <= i < count :: rows[i] == size
  {
    seq(count, i => size)
  }

  /** The sizes of all decoded rows, pass by pass. */
  function Rows(passes: seq<(nat, nat)>, bitsPerPixel: nat): (rows: seq<nat>)
    ensures forall i | 0 <= i < |rows| :: rows[i] >= 1
  {
    if passes == [] then [] else Repeat(RowSize(passes[0].0, bitsPerPixel), passes[0].1) + Rows(passes[1..], bitsPerPixel)
  }

  function Sum(rows: seq<nat>): nat {
    if rows == [] then 0 else rows[0] + Sum(rows[1..])
  }

  // ----- The expected size -----

  lemma {:induction false} SumOfJoin(a: seq<nat>, b: seq<nat>)
    ensures Sum(a + b) == Sum(a) + Sum(b)
  {
    if a == [] {
      assert a + b == b;
    } else {
      assert (a + b)[1..] == a[1..] + b;
      SumOfJoin(a[1..], b);
    }
  }

  lemma {:induction false} SumOfRepeat(size: nat, count: nat)
    ensures Sum(Repeat(size, count)) == count * size
  {
    if count > 0 {
      assert Repeat(size, count)[1..] == Repeat(size, count - 1);
      SumOfRepeat(size, count - 1);
      assert count * size == (count - 1) * size + size;
    }
  }

  /** The accumulating loop of the size computation: the total of all rows, unless it passes the limit. */
  method ExpectedSize(passes: seq<(nat, nat)>, bitsPerPixel: nat) returns (r: Option<nat>)
    ensures r == if Sum(Rows(passes, bitsPerPixel)) <= MAX_DECODED_IMAGE_BYTES then Some(Sum(Rows(passes, bitsPerPixel))) else None
  {
    hide RowSize;
    var total := 0;
    assert passes[0..] == passes;
    for i := 0 to |passes|
      invariant Sum(Rows(passes, bitsPerPixel)) == total + Sum(Rows(passes[i..], bitsPerPixel))
      invariant total <= MAX_DECODED_IMAGE_BYTES
    {
      var size := RowSize(passes[i].0, bitsPerPixel);
      assert passes[i..][1..] == passes[i + 1..] && passes[i..][0] == passes[i];
      SumOfJoin(Repeat(size, passes[i].1), Rows(passes[i + 1..], bitsPerPixel));
      SumOfRepeat(size, passes[i].1);
      total := total + passes[i].1 * size;
      if total > MAX_DECODED_IMAGE_BYTES {
        return None;
      }
    }
    assert passes[|passes|..] == [];
    return Some(total);
  }

  // ----- What a decoded image must look like -----

  /** The bytes are exactly the rows, each opening with a filter byte. */
  predicate IsImage(rows: seq<nat>, data: Bytes) {
    if rows == [] then data == []
    else rows[0] >= 1 && |data| >= rows[0] && data[0] <= MAX_FILTER && IsImage(rows[1..], data[rows[0]..])
  }

  predicate FilterOk(rows: seq<nat>, data: Bytes, r: nat)
    requires r < |rows| && Sum(rows[..r]) < |data|
  {
    data[Sum(rows[..r])] <= MAX_FILTER
  }

  lemma {:induction false} StartInside(rows: seq<nat>, r: nat)
    requires r < |rows| && forall i | 0 <= i < |rows| :: rows[i] >= 1
    ensures Sum(rows[..r]) < Sum(rows)
  {
    assert rows == rows[..r] + rows[r..];
    SumOfJoin(rows[..r], rows[r..]);
  }

  ghost predicate FiltersOk(rows: seq<nat>, data: Bytes)
    requires |data| == Sum(rows) && forall i | 0 <= i < |rows| :: rows[i] >= 1
  {
    forall r | 0 <= r < |rows| :: (StartInside(rows, r); FilterOk(rows, data, r))
  }

  /** An image has the right length and a filter byte of at most 4 at every row start, and nothing else is asked of it. */
  lemma {:induction false} ImagesByLengthAndFilters(rows: seq<nat>, data: Bytes)
    requires forall i | 0 <= i < |rows| :: rows[i] >= 1
    ensures IsImage(rows, data) <==> |data| == Sum(rows) && FiltersOk(rows, data)
  {
    if rows != [] {
      var rest, more := rows[1..], if |data| >= rows[0] then data[rows[0]..] else [];
      ImagesByLengthAndFilters(rest, more);
      assert rows[..0] == [];
      if |data| == Sum(rows) {
        StartInside(rows, 0);
        forall r | 0 <= r < |rest| ensures Sum(rest[..r]) < |more| && (FilterOk(rest, more, r) <==> Sum(rows[..r + 1]) < |data| && FilterOk(rows, data, r + 1)) {
          StartInside(rest, r);
          assert rows[..r + 1] == [rows[0]] + rest[..r];
          assert rows[..r + 1][1..] == rest[..r];
        }
        if FiltersOk(rows, data) {
          assert FilterOk(rows, data, 0);
          forall r | 0 <= r < |rest| ensures FilterOk(rest, more, r) {
            StartInside(rows, r + 1);
            assert FilterOk(rows, data, r + 1);
          }
        }
        if data[0] <= MAX_FILTER && FiltersOk(rest, more) {
          forall r | 0 <= r < |rows| ensures Sum(rows[..r]) < |data| && FilterOk(rows, data, r) {
            StartInside(rows, r);
            if r > 0 {
              assert FilterOk(rest, more, r - 1);
            }
          }
        }
      }
    }
  }

  // ----- Byte by byte -----

  /** The rows not yet finished and how much of the first is read. */
  datatype Position = Position(rows: seq<nat>, offset: nat)

  function Feed(p: Position, b: bv8): Option<Position> {
    if p.rows == [] || (p.offset == 0 && b > MAX_FILTER) then None
    else Some(if p.offset + 1 == p.rows[0] then Position(p.rows[1..], 0) else Position(p.rows, p.offset + 1))
  }

  function FeedAll(p: Position, data: Bytes): Option<Position>
    decreases |data|
  {
    if data == [] then Some(p) else
    var next := Feed(p, data[0]);
    if next.None? then None else FeedAll(next.value, data[1..])
  }

  /** Splitting the bytes anywhere makes no difference. */
  lemma {:induction false} FeedInParts(p: Position, a: Bytes, b: Bytes)
    ensures FeedAll(p, a + b) == if FeedAll(p, a).None? then None else FeedAll(FeedAll(p, a).value, b)
    decreases |a|
  {
    if a == [] {
      assert a + b == b;
    } else {
      assert (a + b)[0] == a[0] && (a + b)[1..] == a[1..] + b;
      var next := Feed(p, a[0]);
      if next.Some? {
        FeedInParts(next.value, a[1..], b);
      }
    }
  }

  ghost predicate Sized(p: Position) {
    && (forall i | 0 <= i < |p.rows| :: p.rows[i] >= 1)
    && (if p.rows == [] then p.offset == 0 else p.offset < p.rows[0])
  }

  /** Feeding part of a row that does not start here only moves the offset. */
  lemma {:induction false} FeedWithinRow(p: Position, data: Bytes)
    requires Sized(p) && p.rows != [] && 0 < |data| <= p.rows[0] - p.offset && (p.offset == 0 ==> data[0] <= MAX_FILTER)
    ensures FeedAll(p, data) == Some(if p.offset + |data| == p.rows[0] then Position(p.rows[1..], 0) else Position(p.rows, p.offset + |data|))
    decreases |data|
  {
    if |data| > 1 {
      FeedWithinRow(Position(p.rows, p.offset + 1), data[1..]);
    } else {
      assert data[1..] == [];
    }
  }

  /** Read from the start, the bytes are an image exactly when feeding them finishes every row. */
  lemma {:induction false} FeedingFinishesImages(rows: seq<nat>, data: Bytes)
    requires forall i | 0 <= i < |rows| :: rows[i] >= 1
    ensures IsImage(rows, data) <==> FeedAll(Position(rows, 0), data) == Some(Position([], 0))
    decreases |rows|
  {
    var start := Position(rows, 0);
    if rows != [] && data != [] && data[0] <= MAX_FILTER {
      if |data| >= rows[0] {
        var row, rest := data[..rows[0]], data[rows[0]..];
        assert data == row + rest;
        FeedInParts(start, row, rest);
        FeedWithinRow(start, row);
        FeedingFinishesImages(rows[1..], rest);
      } else {
        FeedWithinRow(start, data);
      }
    }
  }

  // ----- The validator object -----

  class Validator {
    const passes: seq<(nat, nat)>
    const bitsPerPixel: nat
    const expectedSize: nat
    var passIndex: nat
    var rowsRemaining: nat
    var rowSize: nat
    var rowOffset: nat
    var totalSize: nat

    constructor (passes: seq<(nat, nat)>, bitsPerPixel: nat, expectedSize: nat)
      ensures Valid() && At() == Position(Rows(passes, bitsPerPixel), 0) && totalSize == 0
      ensures this.passes == passes && this.bitsPerPixel == bitsPerPixel && this.expectedSize == expectedSize
    {
      this.passes, this.bitsPerPixel, this.expectedSize := passes, bitsPerPixel, expectedSize;
      passIndex, rowsRemaining, rowSize, rowOffset, totalSize := 0, 0, 0, 0, 0;
      new;
      assert passes[0..] == passes;
      AdvancePass();
    }

    /** Where the validator stands among the rows. */
    function At(): Position
      requires passIndex <= |passes|
      reads this
    {
      Position(Repeat(rowSize, rowsRemaining) + Rows(passes[passIndex..], bitsPerPixel), rowOffset)
    }

    ghost predicate Valid()
      reads this
    {
      && passIndex <= |passes| && totalSize <= expectedSize
      && (rowsRemaining == 0 ==> passIndex == |passes| && rowSize == 0 && rowOffset == 0)
      && (rowsRemaining > 0 ==> rowOffset < rowSize)
    }

    /** `_advance_pass`: on to the next pass that has rows. */
    method AdvancePass()
      requires passIndex <= |passes| && rowsRemaining == 0 && rowOffset == 0 && totalSize <= expectedSize
      modifies this
      ensures Valid() && At() == Position(Rows(old(passes[passIndex..]), bitsPerPixel), 0) && totalSize == old(totalSize)
    {
      hide RowSize;
      while passIndex < |passes|
        invariant passIndex <= |passes| && rowsRemaining == 0 && rowOffset == 0 && totalSize == old(totalSize)
        invariant Rows(passes[passIndex..], bitsPerPixel) == Rows(old(passes[passIndex..]), bitsPerPixel)
        decreases |passes| - passIndex
      {
        var pass := passes[passIndex];
        assert passes[passIndex..][1..] == passes[passIndex + 1..] && passes[passIndex..][0] == pass;
        passIndex := passIndex + 1;
        if pass.1 > 0 {
          rowsRemaining := pass.1;
          rowSize := RowSize(pass.0, bitsPerPixel);
          return;
        }
        assert Repeat(RowSize(pass.0, bitsPerPixel), 0) == [];
      }
      rowsRemaining := 0;
      rowSize := 0;
      assert passes[passIndex..] == [];
    }

    lemma Rest()
      requires Valid()
      ensures Sized(At()) && (At().rows == [] <==> rowsRemaining == 0)
      ensures rowsRemaining > 0 ==> At().rows[0] == rowSize
      ensures rowsRemaining > 0 ==> At().rows[1..] == Repeat(rowSize, rowsRemaining - 1) + Rows(passes[passIndex..], bitsPerPixel)
    {
      if rowsRemaining > 0 {
        assert Repeat(rowSize, rowsRemaining)[1..] == Repeat(rowSize, rowsRemaining - 1);
      } else {
        assert passes[passIndex..] == [];
      }
    }

    /** One turn of the loop, over bytes of one row. */
    method ConsumeWithinRow(part: Bytes)
      requires Valid() && rowsRemaining > 0 && 0 < |part| <= rowSize - rowOffset && (rowOffset == 0 ==> part[0] <= MAX_FILTER)
      requires totalSize + |part| <= expectedSize
      modifies this
      ensures Valid() && FeedAll(old(At()), part) == Some(At()) && totalSize == old(totalSize) + |part|
    {
      hide FeedAll, Rows;
      Rest();
      FeedWithinRow(At(), part);
      rowOffset := rowOffset + |part|;
      totalSize := totalSize + |part|;
      if rowOffset == rowSize {
        rowOffset := 0;
        rowsRemaining := rowsRemaining - 1;
        if rowsRemaining == 0 {
          assert Repeat(rowSize, 0) + Rows(passes[passIndex..], bitsPerPixel) == Rows(passes[passIndex..], bitsPerPixel);
          AdvancePass();
        }
      }
    }

    /** `consume`: it fails exactly when the bytes do not fit the rows ahead or exceed the expected size. */
    method Consume(value: Bytes) returns (ok: bool)
      requires Valid()
      modifies this
      ensures ok <==> FeedAll(old(At()), value).Some? && old(totalSize) + |value| <= expectedSize
      ensures ok ==> Valid() && FeedAll(old(At()), value) == Some(At()) && totalSize == old(totalSize) + |value|
    {
      hide FeedAll, Rows;
      var offset := 0;
      FedNothing(At(), value);
      while offset < |value|
        invariant Valid() && offset <= |value| && totalSize == old(totalSize) + offset
        invariant FeedAll(old(At()), value[..offset]) == Some(At())
      {
        Rest();
        ghost var here := At();
        FedSoFar(old(At()), value, offset, here);
        if rowsRemaining == 0 || rowSize == 0 {
          Unfeedable(here, value[offset..]);
          return false;
        }
        if rowOffset == 0 && value[offset] > MAX_FILTER {
          Unfeedable(here, value[offset..]);
          return false;
        }
        var consumed := if |value| - offset <= rowSize - rowOffset then |value| - offset else rowSize - rowOffset;
        if totalSize + consumed > expectedSize {
          return false;
        }
        ghost var part := value[offset..offset + consumed];
        ConsumeWithinRow(value[offset..offset + consumed]);
        FeedInParts(old(At()), value[..offset], part);
        assert value[..offset + consumed] == value[..offset] + part;
        offset := offset + consumed;
      }
      assert value[..|value|] == value;
      return true;
    }

    /** `finish`. */
    method Finish() returns (ok: bool)
      requires Valid()
      ensures ok <==> totalSize == expectedSize && At() == Position([], 0)
    {
      Rest();
      ok := totalSize == expectedSize && rowsRemaining == 0 && rowOffset == 0;
    }
  }

  lemma FedNothing(p: Position, value: Bytes)
    ensures FeedAll(p, value[..0]) == Some(p)
  {
  }

  lemma FedSoFar(p: Position, value: Bytes, offset: nat, here: Position)
    requires offset <= |value| && FeedAll(p, value[..offset]) == Some(here)
    ensures FeedAll(p, value) == FeedAll(here, value[offset..])
  {
    assert value == value[..offset] + value[offset..];
    FeedInParts(p, value[..offset], value[offset..]);
  }

  lemma Unfeedable(p: Position, data: Bytes)
    requires data != [] && Feed(p, data[0]).None?
    ensures FeedAll(p, data).None?
  {
  }

  function Flat(parts: seq<Bytes>): Bytes {
    if parts == [] then [] else parts[0] + Flat(parts[1..])
  }

  /** The verdict on decoded bytes that arrive in parts: they are accepted exactly when all of them together are an image of
      the expected size, however they are split. */
  method Validate(passes: seq<(nat, nat)>, bitsPerPixel: nat, expectedSize: nat, parts: seq<Bytes>) returns (ok: bool)
    ensures ok <==> IsImage(Rows(passes, bitsPerPixel), Flat(parts)) && |Flat(parts)| == expectedSize
  {
    hide FeedAll, Rows, IsImage;
    var validator := new Validator(passes, bitsPerPixel, expectedSize);
    ghost var start := validator.At();
    FeedingFinishesImages(Rows(passes, bitsPerPixel), Flat(parts));
    ghost var fed: Bytes := [];
    FedNothing(start, fed);
    assert parts[0..] == parts && fed[..0] == fed && fed + Flat(parts) == Flat(parts);
    for i := 0 to |parts|
      invariant fresh(validator) && validator.Valid() && validator.totalSize == |fed| && validator.expectedSize == expectedSize
      invariant FeedAll(start, fed) == Some(validator.At()) && Flat(parts) == fed + Flat(parts[i..])
    {
      assert parts[i..][0] == parts[i] && parts[i..][1..] == parts[i + 1..];
      FeedInParts(start, fed, Flat(parts[i..]));
      FeedInParts(validator.At(), parts[i], Flat(parts[i + 1..]));
      FeedInParts(start, fed, parts[i]);
      ok := validator.Consume(parts[i]);
      if !ok {
        return;
      }
      assert fed + (parts[i] + Flat(parts[i + 1..])) == fed + parts[i] + Flat(parts[i + 1..]);
      fed := fed + parts[i];
    }
    assert parts[|parts|..] == [] && fed + [] == fed;
    ok := validator.Finish();
  }

  // ----- Whole images -----

  /** The rows of an image in width and height: all of one size, or pass by pass as the pixels are drawn. */
  lemma RowsOfAnImage(width: nat, height: nat, interlace: nat, bitsPerPixel: nat)
    ensures interlace == 0 ==> Rows(Passes(width, height, interlace), bitsPerPixel) == Repeat((width * bitsPerPixel + 7) / 8 + 1, height)
    ensures interlace != 0 ==> Rows(Passes(width, height, interlace), bitsPerPixel) == Rows(PixelPasses(width, height, 7), bitsPerPixel)
  {
    PassesByPixels(width, height, interlace);
    assert [(width, height)][1..] == [];
  }

  /** The rows of two lists of passes, and of one pass. */
  lemma {:induction false} RowsPassByPass(a: seq<(nat, nat)>, b: seq<(nat, nat)>, bitsPerPixel: nat)
    ensures Rows(a + b, bitsPerPixel) == Rows(a, bitsPerPixel) + Rows(b, bitsPerPixel)
    ensures |a| == 1 ==> Rows(a, bitsPerPixel) == Repeat((a[0].0 * bitsPerPixel + 7) / 8 + 1, a[0].1)
    decreases |a|
  {
    if a == [] {
      assert a + b == b;
    } else {
      assert (a + b)[1..] == a[1..] + b;
      RowsPassByPass(a[1..], b, bitsPerPixel);
    }
  }

  /** Row y of a plain image starts behind y rows of n bytes, with a filter byte of at most 4. */
  ghost predicate IsPlainImage(height: nat, n: nat, data: Bytes) {
    |data| == height * n && forall y: nat | y < height :: HasFilterAt(data, y * n)
  }

  predicate HasFilterAt(data: Bytes, at: nat) {
    at < |data| && data[at] <= 4
  }

  lemma PlainFilters(height: nat, n: nat, data: Bytes)
    requires n >= 1
    ensures |data| == Sum(Repeat(n, height)) && FiltersOk(Repeat(n, height), data) <==> IsPlainImage(height, n, data)
  {
    var rows := Repeat(n, height);
    SumOfRepeat(n, height);
    forall y: nat | y < height ensures Sum(rows[..y]) == y * n {
      assert rows[..y] == Repeat(n, y);
      SumOfRepeat(n, y);
    }
    if |data| == height * n {
      forall y: nat | y < height ensures y * n < |data| && (FilterOk(rows, data, y) <==> HasFilterAt(data, y * n)) {
        StartInside(rows, y);
      }
      if IsPlainImage(height, n, data) {
        forall y: nat | y < height ensures FilterOk(rows, data, y) {
          assert HasFilterAt(data, y * n);
        }
      }
    }
  }

  /** The decoded data of one image, interlaced or not: of exactly the right length, within 256 MiB, and with a filter byte of at
      most 4 before the pixels of each row; a row takes just the bytes its pixels' bits need. */
  method CheckDecoded(width: nat, height: nat, interlace: nat, bitsPerPixel: nat, parts: seq<Bytes>) returns (ok: bool)
    ensures var n := (width * bitsPerPixel + 7) / 8 + 1;
      interlace == 0 ==> (ok <==> height * n <= 268_435_456 && IsPlainImage(height, n, Flat(parts)))
    ensures var rows := Rows(PixelPasses(width, height, 7), bitsPerPixel);
      interlace != 0 ==> (ok <==> Sum(rows) <= 268_435_456 && |Flat(parts)| == Sum(rows) && FiltersOk(rows, Flat(parts)))
  {
    hide Passes, Rows, IsImage, FiltersOk, PixelPasses, IsPlainImage;
    var passes := PassDimensions(width, height, interlace);
    var expected := ExpectedSize(passes, bitsPerPixel);
    ImagesByLengthAndFilters(Rows(passes, bitsPerPixel), Flat(parts));
    RowsOfAnImage(width, height, interlace, bitsPerPixel);
    SumOfRepeat((width * bitsPerPixel + 7) / 8 + 1, height);
    PlainFilters(height, (width * bitsPerPixel + 7) / 8 + 1, Flat(parts));
    if expected.None? {
      return false;
    }
    ok := Validate(passes, bitsPerPixel, expected.value, parts);
  }

  lemma {:induction false} FlatIsJoined(a: seq<Bytes>, part: Bytes)
    ensures Flat(a + [part]) == Flat(a) + part && Flat([]) == []
    decreases |a|
  {
    if a == [] {
      assert a + [part] == [part] && [part][1..] == [];
    } else {
      assert (a + [part])[1..] == a[1..] + [part];
      FlatIsJoined(a[1..], part);
    }
  }
}
