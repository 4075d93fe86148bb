/**
 Luminance grain: bilinear interpolation of a coarse noise grid, added to the colour
 bytes of every pixel that is not fully transparent. Floats are reals; the random
 numbers are a parameter, each within the amplitude.
 */
module Grain {
  import opened PngFilter

  type Noise = seq<seq<real>>

  /** The grid is sized from the width alone. */
  function GridSize(width: nat, cell: nat): nat
    requires cell > 0
  {
    width / cell + 2
  }

  ghost predicate IsGrid(noise: Noise, size: nat, amplitude: real) {
    && |noise| == size
    && (forall i | 0 <= i < size :: |noise[i]| == size)
    && (forall i, j | 0 <= i < size && 0 <= j < size :: -amplitude <= noise[i][j] <= amplitude)
  }

  function Blend(a: real, b: real, cell: real, fraction: real): real {
    a * (cell - fraction) + b * fraction
  }

  /** Bilinear interpolation between four corners. */
  function Bilinear(n00: real, n01: real, n10: real, n11: real, cell: real, fx: real, fy: real): real
    requires cell > 0.0
  {
    Blend(Blend(n00, n01, cell, fx), Blend(n10, n11, cell, fx), cell, fy) / (cell * cell)
  }

  /** The noise added at a pixel. */
  function Delta(noise: Noise, size: nat, cell: nat, x: nat, y: nat): real
    requires cell > 0 && |noise| == size && (forall i | 0 <= i < size :: |noise[i]| == size)
    requires x / cell + 1 < size && y / cell + 1 < size
  {
    var row, column := y / cell, x / cell;
    Bilinear(noise[row][column], noise[row][column + 1], noise[row + 1][column], noise[row + 1][column + 1],
             cell as real, (x % cell) as real, (y % cell) as real)
  }

  /** Clamped at both ends, truncated in between. */
  function Shifted(b: byte, delta: real): byte {
    var value := b as real + delta;
    if value < 0.0 then 0 else if value > 255.0 then 255 else value.Floor
  }

  // ----- the numeric bound

  lemma Scale(a: real, bound: real, k: real)
    requires -bound <= a <= bound && k >= 0.0
    ensures -(bound * k) <= a * k <= bound * k
  {
    assert (bound - a) * k >= 0.0;
    assert (bound + a) * k >= 0.0;
  }

  lemma BlendBounded(a: real, b: real, bound: real, cell: real, fraction: real)
    requires 0.0 <= fraction <= cell && -bound <= a <= bound && -bound <= b <= bound
    ensures -(bound * cell) <= Blend(a, b, cell, fraction) <= bound * cell
  {
    Scale(a, bound, cell - fraction);
    Scale(b, bound, fraction);
    assert bound * (cell - fraction) + bound * fraction == bound * cell;
  }

  lemma PositiveProduct(a: real, b: real)
    requires a > 0.0 && b > 0.0
    ensures a * b > 0.0
  {
  }

  lemma Unscale(v: real, bound: real, k: real)
    requires k > 0.0 && -(bound * k) <= v <= bound * k
    ensures -bound <= v / k <= bound
  {
    var q := v / k;
    assert q * k == v;
    if q > bound {
      PositiveProduct(q - bound, k);
    }
    if q < -bound {
      PositiveProduct(-bound - q, k);
    }
  }

  /** The four weights sum to the square of the cell. */
  lemma BilinearBounded(n00: real, n01: real, n10: real, n11: real, bound: real, cell: real, fx: real, fy: real)
    requires cell > 0.0 && 0.0 <= fx <= cell && 0.0 <= fy <= cell
    requires -bound <= n00 <= bound && -bound <= n01 <= bound && -bound <= n10 <= bound && -bound <= n11 <= bound
    ensures -bound <= Bilinear(n00, n01, n10, n11, cell, fx, fy) <= bound
  {
    var top, bottom := Blend(n00, n01, cell, fx), Blend(n10, n11, cell, fx);
    BlendBounded(n00, n01, bound, cell, fx);
    BlendBounded(n10, n11, bound, cell, fx);
    BlendTwice(top, bottom, bound, cell, fy);
  }

  lemma BlendTwice(top: real, bottom: real, bound: real, cell: real, fy: real)
    requires cell > 0.0 && 0.0 <= fy <= cell
    requires -(bound * cell) <= top <= bound * cell && -(bound * cell) <= bottom <= bound * cell
    ensures -bound <= Blend(top, bottom, cell, fy) / (cell * cell) <= bound
  {
    BlendBounded(top, bottom, bound * cell, cell, fy);
    TwiceScaled(Blend(top, bottom, cell, fy), bound, cell);
  }

  lemma TwiceScaled(v: real, bound: real, cell: real)
    requires cell > 0.0 && -(bound * cell * cell) <= v <= bound * cell * cell
    ensures -bound <= v / (cell * cell) <= bound
  {
    Unscale(v, bound * cell, cell);
    Unscale(v / cell, bound, cell);
    DivideTwice(v, cell, cell);
  }

  lemma DivideTwice(v: real, a: real, b: real)
    requires a > 0.0 && b > 0.0
    ensures a * b != 0.0 && v / (a * b) == v / a / b
  {
  }

  /** No pixel moves by more than the amplitude. */
  lemma DeltaBounded(noise: Noise, size: nat, amplitude: real, cell: nat, x: nat, y: nat)
    requires cell > 0 && IsGrid(noise, size, amplitude)
    requires x / cell + 1 < size && y / cell + 1 < size
    ensures -amplitude <= Delta(noise, size, cell, x, y) <= amplitude
  {
    var row, column := y / cell, x / cell;
    assert x % cell < cell && y % cell < cell && 0 <= row && 0 <= column;
    BilinearBounded(noise[row][column], noise[row][column + 1], noise[row + 1][column], noise[row + 1][column + 1],
                    amplitude, cell as real, (x % cell) as real, (y % cell) as real);
  }

  /** A colour byte moves by less than the amplitude plus one, the step of truncation. */
  lemma ShiftedBounded(b: byte, delta: real, amplitude: real)
    requires -amplitude <= delta <= amplitude
    ensures -(amplitude + 1.0) < Shifted(b, delta) as real - b as real <= amplitude
  {
  }

  // ----- the loops of the source

  predicate Fits(line: seq<byte>, y: nat, width: nat, cell: nat)
    requires cell > 0
  {
    && width * 4 <= |line|
    && (y / cell <= width / cell || forall x | 0 <= x < width :: line[x * 4 + 3] == 0)
  }

  predicate InGrid(noise: Noise, cell: nat, x: nat, y: nat)
    requires cell > 0
  {
    x / cell + 1 < |noise| && y / cell + 1 < |noise|
  }

  predicate Square(noise: Noise) {
    forall i | 0 <= i < |noise| :: |noise[i]| == |noise|
  }

  /** Byte `k` of a line after grain: alpha bytes, transparent pixels and anything past the
      width stay as they were. */
  function GrainedByte(line: seq<byte>, y: nat, width: nat, cell: nat, noise: Noise, k: nat): byte
    requires cell > 0 && Square(noise) && k < |line| && width * 4 <= |line|
  {
    if k >= width * 4 || k % 4 == 3 || line[k / 4 * 4 + 3] == 0 || !InGrid(noise, cell, k / 4, y) then line[k]
    else Shifted(line[k], Delta(noise, |noise|, cell, k / 4, y))
  }

  /** In a line that fits, every pixel that is touched has its four grid corners, and alpha
      and transparent pixels are not touched. */
  lemma GrainTouchesColours(line: seq<byte>, y: nat, width: nat, cell: nat, noise: Noise, k: nat)
    requires cell > 0 && Fits(line, y, width, cell) && k < width * 4
    requires Square(noise) && |noise| == GridSize(width, cell)
    ensures k % 4 == 3 || line[k / 4 * 4 + 3] == 0 ==> GrainedByte(line, y, width, cell, noise, k) == line[k]
    ensures line[k / 4 * 4 + 3] != 0 ==> InGrid(noise, cell, k / 4, y)
  {
    if line[k / 4 * 4 + 3] != 0 {
      ColumnInGrid(k / 4, width, cell);
    }
  }

  /** No byte moves by as much as the amplitude plus one. */
  lemma GrainIsBounded(line: seq<byte>, y: nat, width: nat, cell: nat, noise: Noise, amplitude: real, k: nat)
    requires cell > 0 && width * 4 <= |line| && k < |line| && amplitude >= 0.0
    requires IsGrid(noise, GridSize(width, cell), amplitude)
    ensures -(amplitude + 1.0) < GrainedByte(line, y, width, cell, noise, k) as real - line[k] as real < amplitude + 1.0
  {
    if InGrid(noise, cell, k / 4, y) {
      DeltaBounded(noise, |noise|, amplitude, cell, k / 4, y);
      ShiftedBounded(line[k], Delta(noise, |noise|, cell, k / 4, y), amplitude);
    }
  }

  lemma ScaleUp(a: int, b: int, c: int)
    requires a < b && c >= 0
    ensures a * c + c <= b * c
  {
    assert (b - a - 1) * c >= 0;
  }

  lemma ColumnInGrid(x: nat, width: nat, cell: nat)
    requires x <= width && cell > 0
    ensures x / cell <= width / cell
  {
    assert x >= x / cell * cell;
    assert width < width / cell * cell + cell;
    if width / cell < x / cell {
      ScaleUp(width / cell, x / cell, cell);
    }
  }

  /** One pixel. */
  method GrainPixel(line: array<byte>, x: nat, delta: real)
    requires x * 4 + 3 < line.Length
    modifies line
    ensures forall k | 0 <= k < line.Length ::
              line[k] == if x * 4 <= k < x * 4 + 3 then Shifted(old(line[k]), delta) else old(line[k])
  {
    for channel := 0 to 3
      invariant forall k | 0 <= k < line.Length ::
                  line[k] == if x * 4 <= k < x * 4 + channel then Shifted(old(line[k]), delta) else old(line[k])
    {
      line[x * 4 + channel] := Shifted(line[x * 4 + channel], delta);
    }
  }

  /** One line. `ok` is false where the source raises an index error: the line is shorter
      than the width, or an opaque pixel lies below the grid. */
  method GrainLine(line: array<byte>, y: nat, width: nat, cell: nat, noise: Noise) returns (ok: bool)
    requires cell > 0 && Square(noise) && |noise| == GridSize(width, cell)
    modifies line
    ensures ok <==> Fits(old(line[..]), y, width, cell)
    ensures ok ==> line[..] == Grained(old(line[..]), y, width, cell, noise)
  {
    ghost var was := line[..];
    for x := 0 to width
      invariant x * 4 <= line.Length
      invariant y / cell <= width / cell || forall i | 0 <= i < x :: was[i * 4 + 3] == 0
      invariant forall k | x * 4 <= k < line.Length :: line[k] == was[k]
      invariant forall k | 0 <= k < x * 4 :: line[k] == GrainedByte(was, y, x, cell, noise, k)
    {
      if x * 4 + 3 >= line.Length {
        return false;
      }
      if line[x * 4 + 3] != 0 {
        ColumnInGrid(x, width, cell);
        if y / cell + 1 >= |noise| {
          return false;
        }
        GrainPixel(line, x, Delta(noise, |noise|, cell, x, y));
      }
      PixelDone(was, y, x, cell, noise);
    }
    ok := true;
    assert line[..] == Grained(was, y, width, cell, noise);
  }

  lemma PixelDone(line: seq<byte>, y: nat, x: nat, cell: nat, noise: Noise)
    requires cell > 0 && Square(noise) && x * 4 + 3 < |line|
    ensures forall k: nat | k < x * 4 ::
              GrainedByte(line, y, x + 1, cell, noise, k) == GrainedByte(line, y, x, cell, noise, k)
    ensures forall k: nat | x * 4 <= k < x * 4 + 4 :: k / 4 == x
  {
  }

  function Grained(line: seq<byte>, y: nat, width: nat, cell: nat, noise: Noise): (s: seq<byte>)
    requires cell > 0 && Square(noise) && width * 4 <= |line|
    ensures |s| == |line|
  {
    seq(|line|, k requires 0 <= k < |line| => GrainedByte(line, y, width, cell, noise, k))
  }

  /** `add_grain` on the whole image; a cell of zero is a division by zero. The loop gets
      through exactly when every line fits, and then each line is its grained self. */
  method AddGrain(width: nat, lines: seq<array<byte>>, cell: nat, noise: Noise) returns (ok: bool)
    requires forall i, j | 0 <= i < j < |lines| :: lines[i] != lines[j]
    requires cell > 0 ==> Square(noise) && |noise| == GridSize(width, cell)
    modifies lines
    ensures ok <==> cell > 0 && forall y | 0 <= y < |lines| :: Fits(old(lines[y][..]), y, width, cell)
    ensures ok ==> forall y | 0 <= y < |lines| :: lines[y][..] == Grained(old(lines[y][..]), y, width, cell, noise)
  {
    if cell == 0 {
      return false;
    }
    for y := 0 to |lines|
      invariant forall k | y <= k < |lines| :: lines[k][..] == old(lines[k][..])
      invariant forall k | 0 <= k < y :: Fits(old(lines[k][..]), k, width, cell)
      invariant forall k | 0 <= k < y :: lines[k][..] == Grained(old(lines[k][..]), k, width, cell, noise)
    {
      var fits := GrainLine(lines[y], y, width, cell, noise);
      if !fits {
        return false;
      }
    }
    ok := true;
  }

  /** An image no taller than the grid is deep always fits, whatever its pixels. */
  lemma ShallowImagesFit(line: seq<byte>, y: nat, width: nat, height: nat, cell: nat)
    requires cell > 0 && y < height && (height - 1) / cell <= width / cell && width * 4 <= |line|
    ensures Fits(line, y, width, cell)
  {
    if y / cell > (height - 1) / cell {
      ColumnInGrid(y, height - 1, cell);
    }
  }

  /** Fitting is about corners: the line is long enough and every opaque pixel of it has its
      four grid points. */
  lemma FitsIffCornersExist(line: seq<byte>, y: nat, width: nat, cell: nat, noise: Noise)
    requires cell > 0 && |noise| == GridSize(width, cell)
    ensures Fits(line, y, width, cell) <==>
              width * 4 <= |line| && forall x | 0 <= x < width && line[x * 4 + 3] != 0 :: InGrid(noise, cell, x, y)
  {
    forall x | 0 <= x < width ensures InGrid(noise, cell, x, y) <==> y / cell <= width / cell {
      ColumnInGrid(x, width, cell);
    }
    if width * 4 <= |line| && y / cell > width / cell && !Fits(line, y, width, cell) {
      var x :| 0 <= x < width && line[x * 4 + 3] != 0;
      assert !InGrid(noise, cell, x, y);
    }
  }

  /** So a taller image fails as soon as a pixel is opaque in or below the first row of pixels
      that the grid, sized by the width alone, does not reach. */
  lemma TallImagesFail(line: seq<byte>, y: nat, x: nat, width: nat, cell: nat)
    requires cell > 0 && width * 4 <= |line| && x < width && line[x * 4 + 3] != 0
    ensures Fits(line, y, width, cell) <==> y < (width / cell + 1) * cell
  {
    RowBound(y, cell, width / cell + 1);
  }

  lemma RowBound(y: nat, cell: nat, rows: nat)
    requires cell > 0
    ensures y / cell < rows <==> y < rows * cell
  {
    var row := y / cell;
    assert row * cell <= y < row * cell + cell;
    if row < rows {
      ScaleUp(row, rows, cell);
    } else if rows < row {
      ScaleUp(rows, row, cell);
    }
  }

  // ----- what is added

  /** The noise at a pixel is that of the four grid points around it, each weighted by how far
      the pixel is from the opposite one. */
  lemma DeltaIsBilinear(noise: Noise, cell: nat, x: nat, y: nat)
    requires cell > 0 && Square(noise) && InGrid(noise, cell, x, y)
    ensures var row, column, size := y / cell, x / cell, cell as real;
            var right, down := (x % cell) as real, (y % cell) as real;
            Delta(noise, |noise|, cell, x, y) * (size * size) ==
              noise[row][column] * (size - right) * (size - down) + noise[row][column + 1] * right * (size - down)
              + noise[row + 1][column] * (size - right) * down + noise[row + 1][column + 1] * right * down
  {
    var row, column, size := y / cell, x / cell, cell as real;
    assert size > 0.0;
    Unmixed(noise[row][column], noise[row][column + 1], noise[row + 1][column], noise[row + 1][column + 1],
            size, (x % cell) as real, (y % cell) as real);
  }

  lemma Unmixed(n00: real, n01: real, n10: real, n11: real, size: real, right: real, down: real)
    requires size > 0.0
    ensures Bilinear(n00, n01, n10, n11, size, right, down) * (size * size) ==
              n00 * (size - right) * (size - down) + n01 * right * (size - down)
              + n10 * (size - right) * down + n11 * right * down
  {
    ScaledBack(Blend(Blend(n00, n01, size, right), Blend(n10, n11, size, right), size, down), size);
    Spread(n00 * (size - right), n01 * right, size - down);
    Spread(n10 * (size - right), n11 * right, down);
  }

  lemma ScaledBack(v: real, size: real)
    requires size > 0.0
    ensures size * size != 0.0 && v / (size * size) * (size * size) == v
  {
    DivideTwice(v, size, size);
    Quotient(v, size);
    Quotient(v / size, size);
    Grouped(v / size / size, size);
  }

  lemma Grouped(q: real, size: real)
    ensures q * (size * size) == q * size * size
  {
  }

  lemma Quotient(a: real, b: real)
    requires b > 0.0
    ensures a / b * b == a
  {
  }

  lemma Spread(a: real, b: real, c: real)
    ensures (a + b) * c == a * c + b * c
  {
  }

  /** A byte with its noise: clamped at 0 and 255, and in between the largest whole number that
      does not exceed the sum. */
  lemma ShiftedIs(b: byte, delta: real)
    ensures var sum, r := b as real + delta, Shifted(b, delta) as real;
            && (sum < 0.0 ==> r == 0.0)
            && (sum > 255.0 ==> r == 255.0)
            && (0.0 <= sum <= 255.0 ==> r <= sum < r + 1.0)
  {
  }

  /** Red, green and blue of an opaque pixel move by the noise at that pixel, alpha does not, and
      neither does a transparent pixel. */
  lemma GrainMovesColours(line: seq<byte>, y: nat, width: nat, cell: nat, noise: Noise, x: nat, channel: nat)
    requires cell > 0 && Fits(line, y, width, cell) && x < width && channel < 4
    requires Square(noise) && |noise| == GridSize(width, cell)
    ensures var grained := Grained(line, y, width, cell, noise);
            if channel == 3 || line[x * 4 + 3] == 0 then grained[x * 4 + channel] == line[x * 4 + channel]
            else
              && InGrid(noise, cell, x, y)
              && grained[x * 4 + channel] == Shifted(line[x * 4 + channel], Delta(noise, |noise|, cell, x, y))
  {
    var k := x * 4 + channel;
    assert k / 4 == x && k % 4 == channel;
    GrainTouchesColours(line, y, width, cell, noise, k);
  }
}
